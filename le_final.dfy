/** The LE_Final firmware of the ATtiny1616 position sensor: it samples the
    sine and cosine channels, takes the median of ten readings, turns the
    angle into a position on a 0..1000 scale, accumulates the absolute
    distance across wrap-arounds, reports it over I2C as two bytes, and
    drives the two RGB LEDs on command. */
module LeFinal {
  import opened Text

  // ---------------------------------------------------------------------------
  // 16-bit AVR integers.

  /** The value an AVR `int` (16-bit two's complement) holds after an
      assignment of `x`. */
  function Wrap16(x: int): (r: int)
    ensures -32768 <= r <= 32767
    ensures (r - x) % 65536 == 0
    ensures -32768 <= x <= 32767 ==> r == x
  {
    (x + 32768) % 65536 - 32768
  }

  /** C's `x / 2` on ints: truncation toward zero. */
  function Halve(x: int): int
  {
    if x >= 0 then x / 2 else -((-x) / 2)
  }

  // ---------------------------------------------------------------------------
  // sortArray and calculateMedian.

  predicate Sorted(s: seq<int>)
  {
    forall p, q :: 0 <= p < q < |s| ==> s[p] <= s[q]
  }

  /** Exchange two entries (the `temp` swap inside sortArray). */
  method Swap(arr: array<int>, i: nat, j: nat)
    requires i < arr.Length && j < arr.Length
    modifies arr
    ensures arr[..] == old(arr[..])[i := old(arr[j])][j := old(arr[i])]
    ensures multiset(arr[..]) == multiset(old(arr[..]))
  {
    arr[i], arr[j] := arr[j], arr[i];
  }

  /** One pass of the inner loop of sortArray over `arr[..n]`: afterwards the
      largest of those entries sits at `arr[n - 1]`. */
  method BubblePass(arr: array<int>, n: nat)
    requires 1 <= n <= arr.Length
    modifies arr
    ensures forall k :: 0 <= k < n ==> arr[k] <= arr[n - 1]
    ensures multiset(arr[..n]) == multiset(old(arr[..n]))
    ensures arr[n..] == old(arr[n..])
  {
    var j := 0;
    while j < n - 1
      invariant 0 <= j <= n - 1
      invariant forall k :: 0 <= k < j ==> arr[k] <= arr[j]
      invariant multiset(arr[..]) == multiset(old(arr[..]))
      invariant arr[n..] == old(arr[n..])
    {
      if arr[j] > arr[j + 1] {
        Swap(arr, j, j + 1);
      }
      j := j + 1;
    }
    PrefixMultiset(arr[..], old(arr[..]), n);
  }

  /** Two sequences with the same multiset and the same suffix from `n` on have
      the same multiset before `n`. */
  lemma PrefixMultiset(a: seq<int>, b: seq<int>, n: nat)
    requires n <= |a| == |b|
    requires multiset(a) == multiset(b) && a[n..] == b[n..]
    ensures multiset(a[..n]) == multiset(b[..n])
  {
    assert a == a[..n] + a[n..];
    assert b == b[..n] + b[n..];
    assert multiset(a) == multiset(a[..n]) + multiset(a[n..]);
    assert multiset(b) == multiset(b[..n]) + multiset(b[n..]);
    calc {
      multiset(a[..n]);
      multiset(a) - multiset(a[n..]);
      multiset(b) - multiset(b[n..]);
      multiset(b[..n]);
    }
  }

  /** sortArray: the bubble sort of the first `size` entries, in place. */
  method SortArray(arr: array<int>, size: nat)
    requires size <= arr.Length
    modifies arr
    ensures Sorted(arr[..size])
    ensures multiset(arr[..size]) == multiset(old(arr[..size]))
    ensures arr[size..] == old(arr[size..])
  {
    var i := 0;
    while i < size - 1
      invariant 0 <= i <= size
      invariant size >= 1 ==> i <= size - 1
      invariant Settled(arr[..], size - i, size)
      invariant multiset(arr[..size]) == multiset(old(arr[..size]))
      invariant arr[size..] == old(arr[size..])
    {
      ghost var before := arr[..];
      BubblePass(arr, size - i);
      PassSettles(before, arr[..], size - i, size);
      i := i + 1;
    }
    SettledSorted(arr[..], size - i, size);
  }

  /** Every entry from `n` to `size` is in its final place: it is no smaller
      than any entry before it. */
  predicate Settled(s: seq<int>, n: int, size: nat)
    requires size <= |s|
  {
    forall p, q :: 0 <= p < q < size && n <= q ==> s[p] <= s[q]
  }

  lemma SettledSorted(s: seq<int>, n: int, size: nat)
    requires size <= |s| && n <= 1
    requires Settled(s, n, size)
    ensures Sorted(s[..size])
  {
    assert forall k :: 0 <= k < size ==> s[..size][k] == s[k];
  }

  /** One bubble pass over the unsettled prefix settles one more entry. */
  lemma PassSettles(before: seq<int>, after: seq<int>, n: nat, size: nat)
    requires 1 <= n <= size <= |before| == |after|
    requires Settled(before, n, size)
    requires forall k :: 0 <= k < n ==> after[k] <= after[n - 1]
    requires multiset(after[..n]) == multiset(before[..n])
    requires after[n..] == before[n..]
    ensures Settled(after, n - 1, size)
    ensures multiset(after[..size]) == multiset(before[..size])
    ensures after[size..] == before[size..]
  {
    assert forall k :: n <= k < |after| ==> after[k] == before[k] by {
      assert forall k :: n <= k < |after| ==> after[n..][k - n] == after[k] && before[n..][k - n] == before[k];
    }
    forall p, q | 0 <= p < q < size && n <= q
      ensures after[p] <= after[q]
    {
      if p < n {
        assert after[p] in multiset(before[..n]) by {
          assert after[..n][p] == after[p];
        }
        var p' :| 0 <= p' < n && before[..n][p'] == after[p];
      }
    }
    assert after[..size] == after[..n] + after[n..size];
    assert before[..size] == before[..n] + before[n..size];
    assert after[n..size] == before[n..size];
  }

  /** calculateMedian: the middle entry of an odd count, the C-truncated mean
      of the two middle entries of an even one. */
  function CalculateMedian(arr: array<int>, size: nat): int
    requires 1 <= size <= arr.Length
    reads arr
  {
    if size % 2 != 0 then arr[size / 2]
    else Halve(arr[(size - 1) / 2] + arr[size / 2])
  }

  /** Over sorted entries the median is at least the lower half and at most
      the upper half. */
  lemma MedianSplitsSorted(arr: array<int>, size: nat)
    requires 1 <= size <= arr.Length
    requires Sorted(arr[..size])
    ensures forall k :: 0 <= k <= (size - 1) / 2 ==> arr[k] <= CalculateMedian(arr, size)
    ensures forall k :: size / 2 <= k < size ==> CalculateMedian(arr, size) <= arr[k]
  {
    assert forall k :: 0 <= k < size ==> arr[..size][k] == arr[k];
    MeanBetween(arr[(size - 1) / 2], arr[size / 2]);
  }

  /** The truncated mean of two ordered values lies between them. */
  lemma MeanBetween(lo: int, hi: int)
    ensures lo <= hi ==> lo <= Halve(lo + hi) <= hi
  {
  }

  // ---------------------------------------------------------------------------
  // The distance step of loop().

  /** The change applied to absolute_distance by loop() AS WRITTEN: the
      "moving down" branch subtracts `(current - 1000) + (previous - lower)`. */
  function StepDeltaAsWritten(previous: int, current: int, lower: int): int
  {
    var difference := current - previous;
    if difference > 500 || difference < -500 then
      if difference < 0 then (1000 - previous) + (current - lower)
      else -((current - 1000) + (previous - lower))
    else difference
  }

  /** The change loop() evidently intends, symmetric to the "moving up"
      branch: crossing the wrap downwards subtracts
      `(1000 - current) + (previous - lower)`. */
  function StepDelta(previous: int, current: int, lower: int): int
  {
    var difference := current - previous;
    if difference > 500 || difference < -500 then
      if difference < 0 then (1000 - previous) + (current - lower)
      else -((1000 - current) + (previous - lower))
    else difference
  }

  /** With the scale starting at 0, the intended step is the shortest signed
      movement around a circle of 1000 positions: it differs from the raw
      difference by a whole turn, never exceeds half a turn, and is the raw
      difference itself when that is at most half a turn. */
  lemma StepDeltaIsShortestMove(previous: int, current: int)
    requires 0 <= previous <= 1000 && 0 <= current <= 1000
    ensures var d := StepDelta(previous, current, 0);
            (d - (current - previous)) % 1000 == 0 && -500 <= d <= 500
    ensures -500 <= current - previous <= 500 ==> StepDelta(previous, current, 0) == current - previous
  {
    var difference := current - previous;
    if difference > 500 {
      assert StepDelta(previous, current, 0) == difference - 1000;
    } else if difference < -500 {
      assert StepDelta(previous, current, 0) == difference + 1000;
    }
  }

  /** Both versions agree except when the position wraps downwards. */
  lemma StepDeltaAgree(previous: int, current: int, lower: int)
    requires current - previous <= 500
    ensures StepDeltaAsWritten(previous, current, lower) == StepDelta(previous, current, lower)
  {
  }

  /** Moving down by 20 positions across the wrap (10 -> 990) leaves the
      absolute distance unchanged as written, instead of lowering it by 20. */
  lemma StepDeltaAsWrittenDownWrap()
    ensures StepDeltaAsWritten(10, 990, 0) == 0
    ensures StepDelta(10, 990, 0) == -20
    ensures (StepDeltaAsWritten(10, 990, 0) - (990 - 10)) % 1000 != 0
  {
  }

  // ---------------------------------------------------------------------------
  // The I2C reply.

  /** The two bytes transmitDataWire sends for a 16-bit value:
      `(v >> 8) & 0xFF` and `v & 0xFF`. */
  function HighByte(v: int): (b: int)
    ensures 0 <= b < 256
  {
    (v % 65536) / 256
  }

  function LowByte(v: int): (b: int)
    ensures 0 <= b < 256
  {
    v % 256
  }

  /** A byte stored into a signed AVR `char`. */
  function ToChar(b: int): (c: int)
    requires 0 <= b < 256
    ensures -128 <= c < 128
  {
    if b < 128 then b else b - 256
  }

  /** A `char` handed to Wire.write, which takes an unsigned byte. */
  function ToByte(c: int): (b: int)
    requires -128 <= c < 128
    ensures 0 <= b < 256
  {
    if c >= 0 then c else c + 256
  }

  /** How the bus master reads the reply back: big-endian signed 16-bit. */
  function Decode(hi: int, lo: int): int
  {
    Wrap16(hi * 256 + lo)
  }

  /** The reply decodes to exactly the 16-bit value. */
  lemma ReplyRoundTrip(v: int)
    requires -32768 <= v <= 32767
    ensures Decode(HighByte(v), LowByte(v)) == v
  {
    var u := if v >= 0 then v else v + 65536;
    assert v % 65536 == u;
    assert v % 256 == u % 256;
    assert HighByte(v) * 256 + LowByte(v) == u;
    assert (u + 32768) % 65536 == v + 32768;
  }

  /** Storing a byte in a `char` and handing it to Wire.write loses nothing. */
  lemma CharRoundTrip(b: int)
    requires 0 <= b < 256
    ensures ToByte(ToChar(b)) == b
  {
  }

  // ---------------------------------------------------------------------------
  // The LEDs.

  /** The six LED pins: two RGB LEDs driven active-low. */
  const LedPins: set<int> := {10, 11, 12, 5, 6, 7}

  /** The pins a colour command drives low: `D` lights 10 and 5, `G` 11 and
      6, `B` 12 and 7; `O` and every other byte light nothing. */
  function LitPins(color: char): (r: set<int>)
    ensures r <= LedPins
  {
    match color
    case 'D' => {10, 5}
    case 'G' => {11, 6}
    case 'B' => {12, 7}
    case _ => {}
  }

  /** The pin levels after a colour command (true is HIGH). */
  function Lights(pins: map<int, bool>, color: char): (r: map<int, bool>)
    ensures forall p :: p in LedPins ==> p in r && (r[p] <==> p !in LitPins(color))
    ensures forall p :: p !in LedPins ==> (p in r <==> p in pins) && (p in pins ==> r[p] == pins[p])
  {
    map p | p in pins.Keys + LedPins :: if p in LedPins then p !in LitPins(color) else pins[p]
  }

  /** The last byte of a bus message that is not the reset command. */
  function LastColor(bytes: seq<char>): (r: Option<char>)
    ensures r.Some? ==> r.value != 'R' && r.value in bytes
    ensures r.None? ==> forall k :: 0 <= k < |bytes| ==> bytes[k] == 'R'
  {
    if |bytes| == 0 then None
    else if bytes[|bytes| - 1] != 'R' then Some(bytes[|bytes| - 1])
    else LastColor(bytes[..|bytes| - 1])
  }

  // ---------------------------------------------------------------------------
  // The board.

  /** The firmware's global state. `pins` maps a pin number to its output
      level (true is HIGH). */
  class Board {
    const address: int
    const cosineSamples: array<int>
    const sineSamples: array<int>
    const temp: array<int>
    const sineOff: int
    const cosineOff: int
    var lowerBound: int
    var difference: int
    var absoluteDistance: int
    var previousDistance: int
    var currentDistance: int
    var cosine: int
    var sine: int
    var pins: map<int, bool>

    /** The state every handler preserves: the arrays have their declared
        sizes and are distinct, the absolute distance is a 16-bit value, and
        all LED pins have a level. */
    predicate Valid()
      reads this
    {
      && cosineSamples.Length == 10 && sineSamples.Length == 10 && temp.Length == 10
      && cosineSamples != sineSamples && cosineSamples != temp && sineSamples != temp
      && -32768 <= absoluteDistance <= 32767
      && LedPins <= pins.Keys
    }

    /** Positions lie on the 0..1000 scale the angle is mapped onto, so the
        lower bound never drops below its initial 0. */
    predicate OnScale()
      reads this
    {
      lowerBound == 0 && 0 <= previousDistance <= 1000
    }

    /** The globals as the sketch declares them; `sineOff` and `cosineOff`
        are the values the settings patcher writes into the sketch. The pin
        levels before setup() are whatever the board powers up with. */
    constructor (address: int, sineOff: int, cosineOff: int, levels: map<int, bool>)
      requires LedPins <= levels.Keys
      ensures Valid() && OnScale() && fresh(cosineSamples) && fresh(sineSamples) && fresh(temp)
      ensures this.address == address && this.sineOff == sineOff && this.cosineOff == cosineOff
      ensures lowerBound == 0 && absoluteDistance == 0 && previousDistance == 0 && currentDistance == 1
      ensures pins == levels
    {
      this.address := address;
      this.sineOff := sineOff;
      this.cosineOff := cosineOff;
      cosineSamples := new int[10](_ => 0);
      sineSamples := new int[10](_ => 0);
      temp := new int[10](_ => 0);
      lowerBound, difference, absoluteDistance := 0, 0, 0;
      previousDistance, currentDistance := 0, 1;
      cosine, sine := 0, 0;
      pins := levels;
    }

    /** set_RGB_off: every LED pin HIGH. */
    method SetRGBOff()
      modifies this`pins
      ensures pins == Lights(old(pins), 'O')
    {
      pins := pins[10 := true][11 := true][12 := true][5 := true][6 := true][7 := true];
    }

    /** set_RGB: all off, then the two pins of the colour LOW. */
    method SetRGB(color: char)
      modifies this`pins
      ensures pins == Lights(old(pins), color)
    {
      SetRGBOff();
      match color {
        case 'D' =>
          pins := pins[10 := false][5 := false];
        case 'G' =>
          pins := pins[11 := false][6 := false];
        case 'B' =>
          pins := pins[12 := false][7 := false];
        case 'O' =>
          SetRGBOff();
          SetRGBOff();
        case _ =>
          SetRGBOff();
      }
    }

    /** receiveEvent: every `R` clears the absolute distance, every other
        byte is a colour command. */
    method ReceiveEvent(bytes: seq<char>)
      requires Valid()
      modifies this`pins, this`absoluteDistance
      ensures Valid()
      ensures 'R' in bytes ==> absoluteDistance == 0
      ensures 'R' !in bytes ==> absoluteDistance == old(absoluteDistance)
      ensures LastColor(bytes).Some? ==> pins == Lights(old(pins), LastColor(bytes).value)
      ensures LastColor(bytes).None? ==> pins == old(pins)
    {
      var i := 0;
      while i < |bytes|
        invariant 0 <= i <= |bytes|
        invariant Valid()
        invariant 'R' in bytes[..i] ==> absoluteDistance == 0
        invariant 'R' !in bytes[..i] ==> absoluteDistance == old(absoluteDistance)
        invariant LastColor(bytes[..i]).Some? ==> pins == Lights(old(pins), LastColor(bytes[..i]).value)
        invariant LastColor(bytes[..i]).None? ==> pins == old(pins)
      {
        var c := bytes[i];
        assert bytes[..i + 1] == bytes[..i] + [c];
        if c == 'R' {
          absoluteDistance := 0;
          assert LastColor(bytes[..i + 1]) == LastColor(bytes[..i]);
        } else {
          ghost var before := pins;
          SetRGB(c);
          LightsTwice(old(pins), before, c);
        }
        i := i + 1;
      }
      assert bytes[..i] == bytes;
    }

    /** transmitDataWire: the absolute distance as two bytes, high first,
        staged in `temp`; ReplyRoundTrip shows they decode back to it. */
    method TransmitDataWire() returns (sent: seq<int>)
      requires Valid()
      modifies temp
      ensures sent == [HighByte(absoluteDistance), LowByte(absoluteDistance)]
      ensures temp[0] == ToChar(sent[0]) && temp[1] == ToChar(sent[1])
      ensures temp[2..] == old(temp[2..])
    {
      var hi, lo := HighByte(absoluteDistance), LowByte(absoluteDistance);
      CharRoundTrip(hi);
      CharRoundTrip(lo);
      temp[0] := ToChar(hi);
      temp[1] := ToChar(lo);
      sent := [];
      for i := 0 to 2
        invariant sent == [hi, lo][..i]
      {
        sent := sent + [ToByte(temp[i])];
      }
    }

    /** setup(): the pin levels, one cosine and sine reading, and the
        starting position. `angle` stands for the atan2 scaling onto
        0..1000. */
    method Setup(adcCosine: int, adcSine: int, angle: (int, int) -> int)
      requires Valid()
      requires forall c, s :: 0 <= angle(c, s) <= 1000
      modifies this`pins, this`cosine, this`sine, this`currentDistance, this`previousDistance, this`absoluteDistance
      ensures Valid()
      ensures pins == old(pins)[10 := false][11 := true][12 := true][5 := false][6 := true][7 := true]
      ensures cosine == adcCosine - 512 - cosineOff && sine == adcSine - 512 - sineOff
      ensures currentDistance == angle(cosine, sine)
      ensures previousDistance == currentDistance && absoluteDistance == 0
      ensures 0 <= previousDistance <= 1000
    {
      pins := pins[10 := false][11 := true][12 := true][5 := false][6 := true][7 := true];
      cosine := adcCosine - 512 - cosineOff;
      sine := adcSine - 512 - sineOff;
      currentDistance := angle(cosine, sine);
      previousDistance := currentDistance;
      absoluteDistance := currentDistance - previousDistance;
    }

    /** The sampling loop at the head of loop(): ten corrected readings per
        channel. */
    method TakeSamples(adcCosine: seq<int>, adcSine: seq<int>)
      requires Valid()
      requires |adcCosine| == 10 && |adcSine| == 10
      modifies cosineSamples, sineSamples
      ensures cosineSamples[..] == Readings(adcCosine, cosineOff)
      ensures sineSamples[..] == Readings(adcSine, sineOff)
    {
      for i := 0 to 10
        invariant cosineSamples[..i] == Readings(adcCosine, cosineOff)[..i]
        invariant sineSamples[..i] == Readings(adcSine, sineOff)[..i]
      {
        cosineSamples[i] := adcCosine[i] - 512 - cosineOff;
        sineSamples[i] := adcSine[i] - 512 - sineOff;
      }
      assert cosineSamples[..] == cosineSamples[..10] && sineSamples[..] == sineSamples[..10];
    }

    /** The two sortArray calls of loop(). */
    method SortSamples()
      requires Valid()
      modifies cosineSamples, sineSamples
      ensures Sorted(cosineSamples[..]) && Sorted(sineSamples[..])
      ensures multiset(cosineSamples[..]) == multiset(old(cosineSamples[..]))
      ensures multiset(sineSamples[..]) == multiset(old(sineSamples[..]))
    {
      assert cosineSamples[..] == cosineSamples[..10] && sineSamples[..] == sineSamples[..10];
      SortArray(cosineSamples, 10);
      SortArray(sineSamples, 10);
      assert cosineSamples[..] == cosineSamples[..10] && sineSamples[..] == sineSamples[..10];
    }

    /** The second half of loop(): the new position against the previous
        one, the lower bound, and the absolute-distance update (with the
        corrected downward wrap). */
    method Track(current: int)
      requires Valid()
      modifies this`currentDistance, this`difference, this`lowerBound, this`absoluteDistance, this`previousDistance
      ensures Valid()
      ensures currentDistance == current && previousDistance == current
      ensures difference == current - old(previousDistance)
      ensures lowerBound == if current < old(lowerBound) then current else old(lowerBound)
      ensures absoluteDistance == Wrap16(old(absoluteDistance) + StepDelta(old(previousDistance), current, lowerBound))
    {
      currentDistance := current;
      difference := currentDistance - previousDistance;
      if currentDistance < lowerBound {
        lowerBound := currentDistance;
      }
      absoluteDistance := Wrap16(absoluteDistance + StepDelta(previousDistance, currentDistance, lowerBound));
      previousDistance := currentDistance;
    }

    /** The head of loop(): ten readings per channel, sorted in place, and
        their medians. */
    method SampleMedians(adcCosine: seq<int>, adcSine: seq<int>)
      requires Valid()
      requires |adcCosine| == 10 && |adcSine| == 10
      modifies cosineSamples, sineSamples, this`cosine, this`sine
      ensures Sorted(cosineSamples[..]) && Sorted(sineSamples[..])
      ensures multiset(cosineSamples[..]) == multiset(Readings(adcCosine, cosineOff))
      ensures multiset(sineSamples[..]) == multiset(Readings(adcSine, sineOff))
      ensures cosine == CalculateMedian(cosineSamples, 10) && sine == CalculateMedian(sineSamples, 10)
    {
      TakeSamples(adcCosine, adcSine);
      SortSamples();
      cosine := CalculateMedian(cosineSamples, 10);
      sine := CalculateMedian(sineSamples, 10);
    }

    /** loop(): the medians of ten readings per channel, and the tracking
        step for the position they give. */
    method Loop(adcCosine: seq<int>, adcSine: seq<int>, angle: (int, int) -> int)
      requires Valid() && OnScale()
      requires |adcCosine| == 10 && |adcSine| == 10
      requires forall c, s :: 0 <= angle(c, s) <= 1000
      modifies cosineSamples, sineSamples, this`cosine, this`sine
      modifies this`currentDistance, this`difference, this`lowerBound, this`absoluteDistance, this`previousDistance
      ensures Valid() && OnScale()
      ensures Sorted(cosineSamples[..]) && Sorted(sineSamples[..])
      ensures multiset(cosineSamples[..]) == multiset(Readings(adcCosine, cosineOff))
      ensures multiset(sineSamples[..]) == multiset(Readings(adcSine, sineOff))
      ensures cosine == CalculateMedian(cosineSamples, 10) && sine == CalculateMedian(sineSamples, 10)
      ensures currentDistance == angle(cosine, sine)
      ensures difference == currentDistance - old(previousDistance)
      ensures absoluteDistance == Wrap16(old(absoluteDistance) + StepDelta(old(previousDistance), currentDistance, 0))
      ensures previousDistance == currentDistance
    {
      SampleMedians(adcCosine, adcSine);
      Track(angle(cosine, sine));
      assert lowerBound == 0;
    }
  }

  /** The ten corrected readings of one channel. */
  function Readings(adc: seq<int>, offset: int): (r: seq<int>)
    ensures |r| == |adc|
  {
    seq(|adc|, k requires 0 <= k < |adc| => adc[k] - 512 - offset)
  }

  /** A colour command only depends on the pins it does not drive, so the
      colour commands of one message compose to the last one. */
  lemma LightsTwice(pins: map<int, bool>, mid: map<int, bool>, color: char)
    requires mid == pins || exists c :: mid == Lights(pins, c)
    ensures Lights(mid, color) == Lights(pins, color)
  {
  }
}
