/** The advanced menu: uploading a chosen hex file to the ATtiny1616 and the
    LE test, which collects `cosine,sine` samples from the reader board. */
module ArduinoAdvanced {
  import opened Text
  import opened Ports
  import opened Sampling
  import opened Stats

  // ---------------------------------------------------------------------------
  // The `cosine,sine` record rule.

  datatype Pair = Pair(cosine: real, sine: real)

  /** The stripped line is accepted when it contains a comma, splits on commas
      into exactly two fields (more fields fail the two-name unpacking), and
      both fields parse as floats. */
  function ParsePair(raw: string, parseFloat: string -> Option<real>): (r: Option<Pair>)
  {
    var line := Strip(raw);
    if ',' in line then
      var fields := Split(line, ',');
      if |fields| == 2 then
        match (parseFloat(fields[0]), parseFloat(fields[1]))
        case (Some(c), Some(s)) => Some(Pair(c, s))
        case _ => None
      else None
    else None
  }

  /** An accepted line holds exactly one comma, is its two fields joined by
      that comma, and the record holds what the fields denote. */
  lemma ParsePairFields(raw: string, parseFloat: string -> Option<real>)
    requires ParsePair(raw, parseFloat).Some?
    ensures CountChar(Strip(raw), ',') == 1
    ensures var fields := Split(Strip(raw), ',');
            && |fields| == 2
            && fields[0] + "," + fields[1] == Strip(raw)
            && parseFloat(fields[0]) == Some(ParsePair(raw, parseFloat).value.cosine)
            && parseFloat(fields[1]) == Some(ParsePair(raw, parseFloat).value.sine)
  {
    var fields := Split(Strip(raw), ',');
    SplitJoin(Strip(raw), ',');
    assert Join(fields, ",") == fields[0] + "," + Join(fields[1..], ",");
  }

  /** The other direction: a line that strips to two comma-free fields which
      parse as floats is accepted with those values. */
  lemma ParsePairAccepts(raw: string, parseFloat: string -> Option<real>, c: string, s: string, y: real, z: real)
    requires ',' !in c && ',' !in s
    requires Strip(raw) == c + "," + s
    requires parseFloat(c) == Some(y) && parseFloat(s) == Some(z)
    ensures ParsePair(raw, parseFloat) == Some(Pair(y, z))
  {
    SplitNoSeparator(s, ',');
    SplitFirstField(c, ',', s);
    assert Strip(raw)[|c|] == ',';
  }

  /** Any line whose comma count is not one is dropped: none is a line without
      data, two or more break the unpacking. */
  lemma ParsePairRejects(raw: string, parseFloat: string -> Option<real>)
    requires CountChar(Strip(raw), ',') != 1
    ensures ParsePair(raw, parseFloat).None?
  {
    if ParsePair(raw, parseFloat).Some? {
      ParsePairFields(raw, parseFloat);
    }
  }

  function PairRule(parseFloat: string -> Option<real>): string -> Option<Pair>
  {
    raw => ParsePair(raw, parseFloat)
  }

  function PairCosines(rs: seq<Pair>): seq<real>
  {
    seq(|rs|, i requires 0 <= i < |rs| => rs[i].cosine)
  }

  function PairSines(rs: seq<Pair>): seq<real>
  {
    seq(|rs|, i requires 0 <= i < |rs| => rs[i].sine)
  }

  // ---------------------------------------------------------------------------
  // run_le_test

  /** The scan over the detected ports that looks for both configured boards
      at once (no early exit). */
  method FindConfiguredPorts(ports: seq<Port>, updi: string, target: string)
    returns (updiFound: bool, targetFound: bool)
    ensures updiFound <==> Present(ports, updi)
    ensures targetFound <==> Present(ports, target)
  {
    updiFound, targetFound := false, false;
    for i := 0 to |ports|
      invariant updiFound <==> Present(ports[..i], updi)
      invariant targetFound <==> Present(ports[..i], target)
    {
      assert forall k :: 0 <= k < i ==> ports[..i + 1][k] == ports[..i][k];
      assert ports[..i + 1][i] == ports[i];
      if ports[i].device == updi {
        updiFound := true;
      }
      if ports[i].device == target {
        targetFound := true;
      }
    }
    assert ports[..|ports|] == ports;
  }

  const TestSamples: nat := 10
  const TestTicks: nat := 300    // 30 s in 100 ms ticks

  /** How an LE test ends. */
  datatype LeTest =
    | MissingBoard(updiFound: bool, targetFound: bool)  // a configured board is not connected
    | NotUploaded                                       // one of the two uploads failed
    | Aborted(end: LoopEnd)                             // a serial error or Ctrl-C
    | Timeout(count: nat)                               // fewer than ten samples
    | Measured(avgCosine: real, avgSine: real)

  /** run_le_test from the port check on: results are computed only for a
      full batch of ten samples. */
  method RunLeTest(ports: seq<Port>, updi: string, target: string, uploaded: bool,
                   events: seq<Event>, parseFloat: string -> Option<real>)
    returns (outcome: LeTest, samples: seq<Pair>, steps: nat)
    ensures outcome.MissingBoard? <==> !Present(ports, updi) || !Present(ports, target)
    ensures outcome.MissingBoard? ==> outcome.updiFound == Present(ports, updi)
                                      && outcome.targetFound == Present(ports, target)
                                      && samples == [] && steps == 0
    ensures outcome.NotUploaded? <==> Present(ports, updi) && Present(ports, target) && !uploaded
    ensures outcome.NotUploaded? ==> samples == [] && steps == 0
    ensures Present(ports, updi) && Present(ports, target) && uploaded ==>
              && Ran(events, TestSamples, TestTicks, PairRule(parseFloat), steps)
              && samples == Accepted(events, steps, PairRule(parseFloat))
              && (outcome.Aborted? <==> EndOf(events, steps) != Stopped)
              && (outcome.Aborted? ==> outcome.end == EndOf(events, steps))
              && (outcome.Measured? <==> EndOf(events, steps) == Stopped && |samples| == TestSamples)
    ensures outcome.Measured? ==>
              && Present(ports, updi) && Present(ports, target) && uploaded
              && samples == Accepted(events, steps, PairRule(parseFloat))
              && |samples| == TestSamples
              && outcome.avgCosine == Mean(PairCosines(samples))
              && outcome.avgSine == Mean(PairSines(samples))
    ensures outcome.Timeout? ==>
              && outcome.count == |samples| < TestSamples
              && samples == Accepted(events, steps, PairRule(parseFloat))
              && IdleTicks(events, steps, PairRule(parseFloat)) >= TestTicks
  {
    samples, steps := [], 0;
    var updiFound, targetFound := FindConfiguredPorts(ports, updi, target);
    if !updiFound || !targetFound {
      return MissingBoard(updiFound, targetFound), samples, steps;
    }
    if !uploaded {
      return NotUploaded, samples, steps;
    }
    var ticks, end;
    samples, ticks, steps, end := Acquire(events, TestSamples, TestTicks, PairRule(parseFloat));
    if end != Stopped {
      return Aborted(end), samples, steps;
    }
    if |samples| < TestSamples {
      return Timeout(|samples|), samples, steps;
    }
    outcome := Measured(Mean(PairCosines(samples)), Mean(PairSines(samples)));
  }

  // ---------------------------------------------------------------------------
  // upload_attiny_code: the hex-file menu.

  /** `[f for f in names if f.endswith('.hex')]`. */
  function HexFiles(names: seq<string>): seq<string>
  {
    if |names| == 0 then []
    else if EndsWith(names[0], ".hex") then [names[0]] + HexFiles(names[1..])
    else HexFiles(names[1..])
  }

  /** The menu lists exactly the names ending in `.hex`. */
  lemma {:induction false} HexFilesMembers(names: seq<string>, f: string)
    ensures f in HexFiles(names) <==> f in names && EndsWith(f, ".hex")
  {
    if |names| > 0 {
      HexFilesMembers(names[1..], f);
      assert names == [names[0]] + names[1..];
    }
  }

  /** The menu keeps the directory order: an entry listed before another one
      comes from an earlier position of the listing. */
  lemma {:induction false} HexFilesOrder(names: seq<string>, i: nat, j: nat)
    requires i < j < |HexFiles(names)|
    ensures exists p, q :: 0 <= p < q < |names| && names[p] == HexFiles(names)[i] && names[q] == HexFiles(names)[j]
  {
    var rest := HexFiles(names[1..]);
    if EndsWith(names[0], ".hex") {
      if i == 0 {
        HexFilesMembers(names[1..], rest[j - 1]);
        var q :| 0 <= q < |names[1..]| && names[1..][q] == rest[j - 1];
        assert names[q + 1] == HexFiles(names)[j];
        assert names[0] == HexFiles(names)[0];
      } else {
        HexFilesOrder(names[1..], i - 1, j - 1);
        var p, q :| 0 <= p < q < |names[1..]| && names[1..][p] == rest[i - 1] && names[1..][q] == rest[j - 1];
        assert names[p + 1] == HexFiles(names)[i] && names[q + 1] == HexFiles(names)[j];
      }
    } else {
      HexFilesOrder(names[1..], i, j);
      var p, q :| 0 <= p < q < |names[1..]| && names[1..][p] == rest[i] && names[1..][q] == rest[j];
      assert names[p + 1] == HexFiles(names)[i] && names[q + 1] == HexFiles(names)[j];
    }
  }

  /** The hex file picked by the typed number: a listed name that ends in
      `.hex`; nothing when the number is not an integer in 1..len. */
  function SelectHex(names: seq<string>, text: string): (r: Option<string>)
    ensures r.Some? ==> r.value in names && EndsWith(r.value, ".hex")
    ensures r.Some? <==> ParseInt(text).Some? && 1 <= ParseInt(text).value <= |HexFiles(names)|
  {
    var r := SelectChoice(HexFiles(names), text);
    if r.Some? then
      HexFilesMembers(names, r.value);
      r
    else r
  }
}
