/** The setup, calibration ("program") and reading workflows of the host tool:
    choosing the UPDI programmer and the target board, collecting
    `address,cosine,sine` samples from the reader board, averaging them and
    writing them into the firmware sketch, and summarising a reading run. */
module ArduinoOperations {
  import opened Text
  import opened Ports
  import opened Sampling
  import opened Stats
  import AddressChanger

  // ---------------------------------------------------------------------------
  // Setup: the two numbered menus.

  /** The target menu: every detected port except the UPDI programmer's, in
      detection order. */
  function OtherPorts(ports: seq<Port>, updi: string): seq<Port>
  {
    if |ports| == 0 then []
    else if ports[0].device != updi then [ports[0]] + OtherPorts(ports[1..], updi)
    else OtherPorts(ports[1..], updi)
  }

  /** The target menu holds exactly the detected ports whose identifier is not
      the programmer's, and nothing else. */
  lemma {:induction false} OtherPortsMembers(ports: seq<Port>, updi: string, p: Port)
    ensures p in OtherPorts(ports, updi) <==> p in ports && p.device != updi
  {
    if |ports| > 0 {
      OtherPortsMembers(ports[1..], updi, p);
      assert ports == [ports[0]] + ports[1..];
    }
  }

  lemma {:induction false} OtherPortsShorter(ports: seq<Port>, updi: string)
    ensures |OtherPorts(ports, updi)| <= |ports|
    ensures |OtherPorts(ports, updi)| == |ports| <==> !Present(ports, updi)
  {
    if |ports| > 0 {
      OtherPortsShorter(ports[1..], updi);
      assert Present(ports, updi) <==> ports[0].device == updi || Present(ports[1..], updi) by {
        if Present(ports[1..], updi) {
          var i :| 0 <= i < |ports[1..]| && ports[1..][i].device == updi;
          assert ports[i + 1].device == updi;
        }
        if Present(ports, updi) && ports[0].device != updi {
          var i :| 0 <= i < |ports| && ports[i].device == updi;
          assert ports[1..][i - 1].device == updi;
        }
      }
    }
  }

  /** The loop that builds `target_options`. */
  method TargetOptions(ports: seq<Port>, updi: string) returns (options: seq<Port>)
    ensures options == OtherPorts(ports, updi)
  {
    options := [];
    for i := 0 to |ports|
      invariant options + OtherPorts(ports[i..], updi) == OtherPorts(ports, updi)
    {
      assert ports[i..] == [ports[i]] + ports[i + 1..];
      if ports[i].device != updi {
        options := options + [ports[i]];
      }
    }
  }

  /** The target chosen from the menu by the typed number: never the UPDI
      programmer, always a detected port; no choice when the menu is empty. */
  function SelectTarget(ports: seq<Port>, updi: string, text: string): (r: Option<Port>)
    ensures r.Some? ==> r.value in ports && r.value.device != updi
  {
    var options := OtherPorts(ports, updi);
    var r := SelectChoice(options, text);
    if r.Some? then
      OtherPortsMembers(ports, updi, r.value);
      r
    else r
  }

  lemma SelectTargetEmptyMenu(ports: seq<Port>, updi: string, text: string)
    requires forall k :: 0 <= k < |ports| ==> ports[k].device == updi
    ensures SelectTarget(ports, updi, text).None?
  {
    if OtherPorts(ports, updi) != [] {
      OtherPortsMembers(ports, updi, OtherPorts(ports, updi)[0]);
    }
  }

  // ---------------------------------------------------------------------------
  // The `address,cosine,sine` record rule.

  /** One reading from the reader board. */
  datatype Triple = Triple(address: int, cosine: real, sine: real)

  /** The stripped line is accepted when it holds exactly two commas and its
      three fields parse as int, float, float; `parseFloat` is Python's
      float(). */
  function ParseTriple(raw: string, parseFloat: string -> Option<real>): (r: Option<Triple>)
    ensures r.Some? ==> CountChar(Strip(raw), ',') == 2
  {
    var line := Strip(raw);
    if CountChar(line, ',') == 2 then
      var fields := Split(line, ',');
      match (ParseInt(fields[0]), parseFloat(fields[1]), parseFloat(fields[2]))
      case (Some(a), Some(c), Some(s)) => Some(Triple(a, c, s))
      case _ => None
    else None
  }

  /** An accepted line is exactly its three fields joined by commas, and the
      record holds what those fields denote. */
  lemma ParseTripleFields(raw: string, parseFloat: string -> Option<real>)
    requires ParseTriple(raw, parseFloat).Some?
    ensures var fields := Split(Strip(raw), ',');
            var t := ParseTriple(raw, parseFloat).value;
            && |fields| == 3
            && fields[0] + "," + fields[1] + "," + fields[2] == Strip(raw)
            && ParseInt(fields[0]) == Some(t.address)
            && parseFloat(fields[1]) == Some(t.cosine)
            && parseFloat(fields[2]) == Some(t.sine)
  {
    var fields := Split(Strip(raw), ',');
    SplitJoin(Strip(raw), ',');
    assert Join(fields, ",") == fields[0] + "," + Join(fields[1..], ",");
    assert Join(fields[1..], ",") == fields[1] + "," + Join(fields[2..], ",");
  }

  /** The other direction: a line that strips to three comma-free fields
      which parse as int, float, float is accepted with those values. */
  lemma ParseTripleAccepts(raw: string, parseFloat: string -> Option<real>,
                           a: string, c: string, s: string, x: int, y: real, z: real)
    requires ',' !in a && ',' !in c && ',' !in s
    requires Strip(raw) == a + "," + c + "," + s
    requires ParseInt(a) == Some(x) && parseFloat(c) == Some(y) && parseFloat(s) == Some(z)
    ensures ParseTriple(raw, parseFloat) == Some(Triple(x, y, z))
  {
    SplitThree(a, c, s);
    assert CountChar(Strip(raw), ',') == 2;
  }

  lemma SplitThree(a: string, c: string, s: string)
    requires ',' !in a && ',' !in c && ',' !in s
    ensures Split(a + "," + c + "," + s, ',') == [a, c, s]
  {
    var tail := c + [','] + s;
    SplitNoSeparator(s, ',');
    SplitFirstField(c, ',', s);
    SplitFirstField(a, ',', tail);
    assert a + "," + c + "," + s == a + [','] + tail;
  }

  function TripleRule(parseFloat: string -> Option<real>): string -> Option<Triple>
  {
    raw => ParseTriple(raw, parseFloat)
  }

  /** The parallel lists `device_addresses`, `cosine_values`, `sine_values`. */
  function Addresses(rs: seq<Triple>): seq<int>
  {
    seq(|rs|, i requires 0 <= i < |rs| => rs[i].address)
  }

  function Cosines(rs: seq<Triple>): seq<real>
  {
    seq(|rs|, i requires 0 <= i < |rs| => rs[i].cosine)
  }

  function Sines(rs: seq<Triple>): seq<real>
  {
    seq(|rs|, i requires 0 <= i < |rs| => rs[i].sine)
  }

  // ---------------------------------------------------------------------------
  // Calibration (program_arduino).

  const CalibrationSamples: nat := 10
  const CalibrationTicks: nat := 300    // 30 s in 100 ms ticks

  /** `int(input(...))` followed by the 0..255 range check. */
  function CheckAddress(text: string): (r: Option<int>)
    ensures r.Some? <==> ParseInt(text).Some? && 0 <= ParseInt(text).value <= 255
    ensures r.Some? ==> r == ParseInt(text)
  {
    match ParseInt(text)
    case Some(a) => if 0 <= a <= 255 then Some(a) else None
    case None => None
  }

  /** How a calibration run ends. */
  datatype Calibration =
    | BadAddress                 // the typed address is not an integer in 0..255
    | NotUploaded                // one of the two firmware uploads failed
    | Aborted(end: LoopEnd)      // a serial error or Ctrl-C left the loop
    | Shortfall(count: nat)      // the timeout struck before ten samples
    | Calibrated(address: int, avgSine: int, avgCosine: int, written: bool)

  /** program_arduino from the address prompt on. The two uploads are the
      outcome `uploaded` of external tools; `events` is what the reader board
      sends. The sketch is touched only after a full batch of ten samples,
      and then with the truncated averages. */
  method ProgramArduino(f: AddressChanger.SketchFile, addressText: string, uploaded: bool,
                        events: seq<Event>, parseFloat: string -> Option<real>)
    returns (outcome: Calibration, samples: seq<Triple>, steps: nat)
    modifies f
    ensures f.writable == old(f.writable)
    ensures outcome.BadAddress? <==> CheckAddress(addressText).None?
    ensures outcome.NotUploaded? <==> CheckAddress(addressText).Some? && !uploaded
    ensures outcome.BadAddress? || outcome.NotUploaded? ==> samples == [] && steps == 0
    ensures CheckAddress(addressText).Some? && uploaded ==>
              && Ran(events, CalibrationSamples, CalibrationTicks, TripleRule(parseFloat), steps)
              && samples == Accepted(events, steps, TripleRule(parseFloat))
              && (outcome.Aborted? <==> EndOf(events, steps) != Stopped)
              && (outcome.Aborted? ==> outcome.end == EndOf(events, steps))
              && (outcome.Calibrated? <==> EndOf(events, steps) == Stopped && |samples| == CalibrationSamples)
    ensures !outcome.Calibrated? ==> f.text == old(f.text)
    ensures outcome.Calibrated? ==>
              && CheckAddress(addressText) == Some(outcome.address) && uploaded
              && samples == Accepted(events, steps, TripleRule(parseFloat))
              && |samples| == CalibrationSamples
              && outcome.avgCosine == Trunc(Mean(Cosines(samples)))
              && outcome.avgSine == Trunc(Mean(Sines(samples)))
              && (outcome.written <==> old(f.text).Some? && f.writable)
              && f.text == (if outcome.written
                            then Some(AddressChanger.RewriteAll(old(f.text).value,
                                        AddressChanger.Settings(outcome.address, outcome.avgSine, outcome.avgCosine)))
                            else old(f.text))
    ensures outcome.Shortfall? ==> outcome.count == |samples| < CalibrationSamples
                                   && samples == Accepted(events, steps, TripleRule(parseFloat))
                                   && IdleTicks(events, steps, TripleRule(parseFloat)) >= CalibrationTicks
  {
    samples, steps := [], 0;
    var address := CheckAddress(addressText);
    if address.None? {
      return BadAddress, samples, steps;
    }
    if !uploaded {
      return NotUploaded, samples, steps;
    }
    var ticks, end;
    samples, ticks, steps, end := Acquire(events, CalibrationSamples, CalibrationTicks, TripleRule(parseFloat));
    if end != Stopped {
      return Aborted(end), samples, steps;
    }
    if |samples| < CalibrationSamples {
      return Shortfall(|samples|), samples, steps;
    }
    var avgCosine := Trunc(Mean(Cosines(samples)));
    var avgSine := Trunc(Mean(Sines(samples)));
    var ok, report := AddressChanger.UpdateSettings(f, address.value, avgSine, avgCosine);
    outcome := Calibrated(address.value, avgSine, avgCosine, ok);
  }

  // ---------------------------------------------------------------------------
  // Reading (read_arduino).

  const ReadingSamples: nat := 20
  const ReadingTicks: nat := 600    // 60 s in 100 ms ticks

  /** The printed summary of a reading run. */
  datatype Reading = Reading(count: nat, avgCosine: real, minCosine: real, maxCosine: real,
                             avgSine: real, minSine: real, maxSine: real,
                             intCosine: int, intSine: int)

  /** The statistics block, computed only for a non-empty batch. */
  function Summarise(samples: seq<Triple>): (r: Reading)
    requires |samples| > 0
    ensures r.count == |samples|
    ensures r.minCosine <= r.avgCosine <= r.maxCosine
    ensures r.minSine <= r.avgSine <= r.maxSine
    ensures forall k :: 0 <= k < |samples| ==>
              r.minCosine <= samples[k].cosine <= r.maxCosine && r.minSine <= samples[k].sine <= r.maxSine
    ensures r.intCosine == Trunc(r.avgCosine) && r.intSine == Trunc(r.avgSine)
  {
    var cs, ss := Cosines(samples), Sines(samples);
    MeanInRange(cs);
    MeanInRange(ss);
    assert forall k :: 0 <= k < |samples| ==> cs[k] == samples[k].cosine && ss[k] == samples[k].sine;
    Reading(|samples|, Mean(cs), Min(cs), Max(cs), Mean(ss), Min(ss), Max(ss),
            Trunc(Mean(cs)), Trunc(Mean(ss)))
  }

  /** read_arduino from the configuration check on. `target` is the configured
      target port, if any. Ctrl-C inside the loop keeps the samples gathered
      so far; any other error ends the run without a summary. */
  method ReadArduino(ports: seq<Port>, target: Option<string>, events: seq<Event>,
                     parseFloat: string -> Option<real>)
    returns (summary: Option<Reading>, samples: seq<Triple>, steps: nat)
    ensures summary.Some? ==>
              && target.Some? && target.value != "" && Present(ports, target.value)
              && samples == Accepted(events, steps, TripleRule(parseFloat))
              && 1 <= |samples| <= ReadingSamples
              && summary == Some(Summarise(samples))
    ensures target.None? || target.value == "" || !Present(ports, target.value) ==> summary.None?
    ensures target.None? || target.value == "" || !Present(ports, target.value) ==> samples == [] && steps == 0
    ensures target.Some? && target.value != "" && Present(ports, target.value) ==>
              && Ran(events, ReadingSamples, ReadingTicks, TripleRule(parseFloat), steps)
              && samples == Accepted(events, steps, TripleRule(parseFloat))
              && (summary.None? <==> |samples| == 0 || EndOf(events, steps) == Faulted)
              && (summary.None? <==> |samples| == 0 || (steps > 0 && EventAt(events, steps - 1) == Fault))
  {
    summary, samples, steps := None, [], 0;
    if |ports| == 0 || target.None? || target.value == "" || !Present(ports, target.value) {
      return;
    }
    var ticks, end;
    samples, ticks, steps, end := Acquire(events, ReadingSamples, ReadingTicks, TripleRule(parseFloat));
    if end == Faulted || |samples| == 0 {
      return;
    }
    summary := Some(Summarise(samples));
  }
}
