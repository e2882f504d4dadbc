/** The settings patcher: it reads the three calibration constants out of the
    firmware sketch, rewrites the lines that declare them, re-reads the sketch
    to verify, and prompts for new values within their ranges. */
module AddressChanger {
  import opened Text

  /** The three variables the patcher knows. */
  datatype Var = Address | Sine | Cosine

  function Name(v: Var): (n: string)
    ensures |n| > 0 && !IsSpace(n[0])
  {
    match v
    case Address => "address"
    case Sine => "sine_off"
    case Cosine => "cosine_off"
  }

  /** A pending or read triple of settings. */
  datatype Settings = Settings(address: int, sine: int, cosine: int)

  function ValueOf(s: Settings, v: Var): int
  {
    match v
    case Address => s.address
    case Sine => s.sine
    case Cosine => s.cosine
  }

  /** What read_current_settings falls back to. */
  const Defaults := Settings(8, 0, 0)

  // ---------------------------------------------------------------------------
  // The patterns `int\s+NAME\s*=` (write side) and `int\s+NAME\s*=\s*(\d+)`
  // (read side), searched within one line.

  /** A match of `int\s+NAME\s*=` starting at `i`: the index just after `=`. */
  function DeclEndAt(s: string, i: nat, v: Var): (r: Option<nat>)
    ensures r.Some? ==> i + 4 < r.value <= |s|
  {
    if StartsAt(s, i, "int") then
      var j := SkipSpaces(s, i + 3);
      if j > i + 3 && StartsAt(s, j, Name(v)) then
        var k := SkipSpaces(s, j + |Name(v)|);
        if k < |s| && s[k] == '=' then Some(k + 1) else None
      else None
    else None
  }

  /** The leftmost match of the write-side pattern at or after `from`. */
  function FindDecl(s: string, v: Var, from: nat): (r: Option<nat>)
    ensures r.Some? ==> from <= r.value < |s| && DeclEndAt(s, r.value, v).Some?
    decreases |s| - from
  {
    if from >= |s| then None
    else if DeclEndAt(s, from, v).Some? then Some(from)
    else FindDecl(s, v, from + 1)
  }

  /** FindDecl is the leftmost match: no match starts before it, and None
      means no match at all. */
  lemma {:induction false} FindDeclLeftmost(s: string, v: Var, from: nat, k: nat)
    requires from <= k
    requires FindDecl(s, v, from).None? || k < FindDecl(s, v, from).value
    ensures DeclEndAt(s, k, v).None?
    decreases |s| - from
  {
    if k >= |s| {
      assert !StartsAt(s, k, "int");
    } else if k > from {
      FindDeclLeftmost(s, v, from + 1, k);
    }
  }

  /** The line declares `v` in the sense of the write pass. */
  predicate Declares(line: string, v: Var)
  {
    FindDecl(line, v, 0).Some?
  }

  /** A match of the read-side pattern starting at `i`: the captured number. */
  function ValueAt(s: string, i: nat, v: Var): (r: Option<nat>)
    ensures r.Some? ==> DeclEndAt(s, i, v).Some?
  {
    match DeclEndAt(s, i, v)
    case None => None
    case Some(e) =>
      var m := SkipSpaces(s, e);
      var d := SkipDigits(s, m);
      if d > m then Some(DigitsValue(s[m..d])) else None
  }

  /** The number captured by the leftmost read-side match at or after `from`. */
  function FirstValue(s: string, v: Var, from: nat): (r: Option<nat>)
    decreases |s| - from
  {
    if from >= |s| then None
    else if ValueAt(s, from, v).Some? then ValueAt(s, from, v)
    else FirstValue(s, v, from + 1)
  }

  /** A line in which the read pattern finds `v` also declares `v` for the
      write pass (the read pattern extends the write pattern). */
  lemma {:induction false} ValueImpliesDeclares(s: string, v: Var, from: nat)
    requires FirstValue(s, v, from).Some?
    ensures FindDecl(s, v, from).Some?
    decreases |s| - from
  {
    if ValueAt(s, from, v).None? {
      ValueImpliesDeclares(s, v, from + 1);
    }
  }

  // ---------------------------------------------------------------------------
  // read_current_settings

  /** The value of the first line, in file order, where the read pattern for
      `v` matches. */
  function ReadVar(lines: seq<string>, v: Var): Option<nat>
  {
    if |lines| == 0 then None
    else if FirstValue(lines[0], v, 0).Some? then FirstValue(lines[0], v, 0)
    else ReadVar(lines[1..], v)
  }

  /** ReadVar takes the value of the first line that has one: line `k` has a
      value and no line before it has one exactly when ReadVar is that value. */
  lemma {:induction false} ReadVarFirst(lines: seq<string>, v: Var, k: nat)
    requires k < |lines| && FirstValue(lines[k], v, 0).Some?
    requires forall j :: 0 <= j < k ==> FirstValue(lines[j], v, 0).None?
    ensures ReadVar(lines, v) == FirstValue(lines[k], v, 0)
  {
    if k > 0 {
      assert forall j :: 0 <= j < k - 1 ==> lines[1..][j] == lines[j + 1];
      ReadVarFirst(lines[1..], v, k - 1);
    }
  }

  /** ReadVar is None exactly when no line has a value. */
  lemma {:induction false} ReadVarNone(lines: seq<string>, v: Var)
    ensures ReadVar(lines, v).None? <==> forall k :: 0 <= k < |lines| ==> FirstValue(lines[k], v, 0).None?
  {
    if |lines| > 0 {
      ReadVarNone(lines[1..], v);
      assert forall k :: 1 <= k < |lines| ==> lines[k] == lines[1..][k - 1];
    }
  }

  /** The settings read from a readable sketch: the first match of each
      pattern, or the documented default when a pattern finds nothing. */
  function ReadSettingsFromLines(lines: seq<string>): (r: Settings)
    ensures r.address >= 0 && r.sine >= 0 && r.cosine >= 0
    ensures ReadVar(lines, Address).None? ==> r.address == 8
    ensures ReadVar(lines, Sine).None? ==> r.sine == 0
    ensures ReadVar(lines, Cosine).None? ==> r.cosine == 0
    ensures ReadVar(lines, Address).Some? ==> r.address == ReadVar(lines, Address).value
    ensures ReadVar(lines, Sine).Some? ==> r.sine == ReadVar(lines, Sine).value
    ensures ReadVar(lines, Cosine).Some? ==> r.cosine == ReadVar(lines, Cosine).value
  {
    Settings(ReadVar(lines, Address).GetOr(8), ReadVar(lines, Sine).GetOr(0), ReadVar(lines, Cosine).GetOr(0))
  }

  /** The firmware sketch on disk, as the lines `readlines()` gives. */
  class SketchFile {
    var text: Option<seq<string>>  // None: the file cannot be opened or decoded
    var writable: bool

    constructor (text: Option<seq<string>>, writable: bool)
      ensures this.text == text && this.writable == writable
    {
      this.text := text;
      this.writable := writable;
    }
  }

  /** read_current_settings: any read error gives exactly the defaults. */
  function ReadCurrentSettings(f: SketchFile): (r: Settings)
    reads f
    ensures f.text.None? ==> r == Defaults
    ensures f.text.Some? ==> r == ReadSettingsFromLines(f.text.value)
  {
    match f.text
    case None => Defaults
    case Some(lines) => ReadSettingsFromLines(lines)
  }

  // ---------------------------------------------------------------------------
  // update_settings

  /** The canonical line `int NAME=VALUE;\n` the write pass emits. */
  function Canonical(v: Var, x: int): string
  {
    "int " + Name(v) + "=" + IntToString(x) + ";\n"
  }

  /** Which branch of the if/elif chain a line takes: address first, then
      sine_off, then cosine_off. */
  function Branch(line: string): (r: Option<Var>)
    ensures r == Some(Address) <==> Declares(line, Address)
    ensures r == Some(Sine) <==> !Declares(line, Address) && Declares(line, Sine)
    ensures r == Some(Cosine) <==> !Declares(line, Address) && !Declares(line, Sine) && Declares(line, Cosine)
  {
    if Declares(line, Address) then Some(Address)
    else if Declares(line, Sine) then Some(Sine)
    else if Declares(line, Cosine) then Some(Cosine)
    else None
  }

  function RewriteLine(line: string, s: Settings): string
  {
    match Branch(line)
    case Some(v) => Canonical(v, ValueOf(s, v))
    case None => line
  }

  /** The new lines: as many as were read, each line that declares none of
      the three variables copied unchanged in place, each other line the
      canonical line of the first variable it declares. */
  function RewriteAll(lines: seq<string>, s: Settings): (r: seq<string>)
    ensures |r| == |lines|
    ensures forall i :: 0 <= i < |lines| ==>
              (!Declares(lines[i], Address) && !Declares(lines[i], Sine) && !Declares(lines[i], Cosine) ==> r[i] == lines[i])
    ensures forall i :: 0 <= i < |lines| ==>
              (Declares(lines[i], Address) ==> r[i] == Canonical(Address, s.address))
    ensures forall i :: 0 <= i < |lines| ==>
              (!Declares(lines[i], Address) && Declares(lines[i], Sine) ==> r[i] == Canonical(Sine, s.sine))
    ensures forall i :: 0 <= i < |lines| ==>
              (!Declares(lines[i], Address) && !Declares(lines[i], Sine) && Declares(lines[i], Cosine)
               ==> r[i] == Canonical(Cosine, s.cosine))
  {
    seq(|lines|, i requires 0 <= i < |lines| => RewriteLine(lines[i], s))
  }

  /** The variables some line was rewritten for (the true entries of
      `changes_made`). */
  function Updated(lines: seq<string>): set<Var>
  {
    set v: Var, i | 0 <= i < |lines| && Branch(lines[i]) == Some(v) :: v
  }

  /** The `for line in lines` loop of update_settings. */
  method RewriteLines(lines: seq<string>, s: Settings) returns (newLines: seq<string>, changed: set<Var>)
    ensures newLines == RewriteAll(lines, s)
    ensures changed == Updated(lines)
  {
    newLines, changed := [], {};
    for i := 0 to |lines|
      invariant newLines == RewriteAll(lines[..i], s)
      invariant changed == Updated(lines[..i])
    {
      var line := lines[i];
      match Branch(line) {
        case Some(v) =>
          newLines := newLines + [Canonical(v, ValueOf(s, v))];
          changed := changed + {v};
        case None =>
          newLines := newLines + [line];
      }
      assert lines[..i + 1] == lines[..i] + [line];
      RewriteAllSnoc(lines[..i], line, s);
      UpdatedSnoc(lines[..i], line);
    }
    assert lines[..|lines|] == lines;
  }

  lemma RewriteAllSnoc(lines: seq<string>, line: string, s: Settings)
    ensures RewriteAll(lines + [line], s) == RewriteAll(lines, s) + [RewriteLine(line, s)]
  {
    assert forall i :: 0 <= i < |lines| ==> (lines + [line])[i] == lines[i];
  }

  lemma UpdatedSnoc(lines: seq<string>, line: string)
    ensures Updated(lines + [line]) == Updated(lines) + (if Branch(line).Some? then {Branch(line).value} else {})
  {
    var ext := lines + [line];
    assert forall i :: 0 <= i < |lines| ==> ext[i] == lines[i];
    assert ext[|lines|] == line;
  }

  /** What update_settings reports besides its success flag. */
  datatype UpdateReport = UpdateReport(updated: set<Var>, verified: Settings, mismatch: bool)
  {
    /** The variables named in the "Could not find and update" warning. */
    function Missing(): set<Var>
    {
      set v: Var | v !in updated
    }
  }

  /** The warning names exactly the variables that no line of the sketch
      declares, and every other variable is rewritten on some line. */
  lemma MissingUndeclared(lines: seq<string>, s: Settings, v: Var)
    ensures v in UpdateReport(Updated(lines), s, false).Missing() <==>
              forall i :: 0 <= i < |lines| ==> Branch(lines[i]) != Some(v)
    ensures v !in UpdateReport(Updated(lines), s, false).Missing() ==>
              exists i :: 0 <= i < |lines| && RewriteAll(lines, s)[i] == Canonical(v, ValueOf(s, v))
  {
    if v in Updated(lines) {
      var i :| 0 <= i < |lines| && Branch(lines[i]) == Some(v);
      assert RewriteAll(lines, s)[i] == Canonical(v, ValueOf(s, v));
    }
  }

  /** update_settings: read the whole sketch, rewrite it, write it back, re-read
      it. A read or write error returns false before anything is written; a
      missing variable is only a warning. */
  method UpdateSettings(f: SketchFile, address: int, sine: int, cosine: int) returns (ok: bool, report: UpdateReport)
    modifies f
    ensures f.writable == old(f.writable)
    ensures old(f.text).None? || !f.writable ==> !ok && f.text == old(f.text)
    ensures old(f.text).Some? && f.writable ==>
              && ok
              && f.text == Some(RewriteAll(old(f.text).value, Settings(address, sine, cosine)))
              && report.updated == Updated(old(f.text).value)
              && (forall v :: v in report.Missing() <==> v !in Updated(old(f.text).value))
              && report.verified == ReadCurrentSettings(f)
              && (report.mismatch <==> report.verified != Settings(address, sine, cosine))
  {
    report := UpdateReport({}, Defaults, false);
    if f.text.None? {
      return false, report;
    }
    var requested := Settings(address, sine, cosine);
    var newLines, changed := RewriteLines(f.text.value, requested);
    if !f.writable {
      return false, report;
    }
    f.text := Some(newLines);
    var verified := ReadCurrentSettings(f);
    report := UpdateReport(changed, verified, verified != requested);
    ok := true;
  }

  // ---------------------------------------------------------------------------
  // Properties of the canonical line.

  /** The only 't' of a canonical line is the one of its leading `int`. */
  lemma CanonicalOneT(v: Var, x: int, k: nat)
    requires k < |Canonical(v, x)| && Canonical(v, x)[k] == 't'
    ensures k == 2
  {
    var n, d := Name(v), IntToString(x);
    var c := Canonical(v, x);
    assert c == "int " + n + "=" + d + ";\n";
    assert forall q :: 0 <= q < |n| ==> n[q] != 't';
    assert forall q :: 0 <= q < |d| ==> d[q] != 't' by {
      forall q | 0 <= q < |d| ensures d[q] != 't' {
        if x < 0 {
          assert q == 0 || d[q] == d[1..][q - 1];
        }
      }
    }
  }

  /** The write pattern for `v` matches a canonical line of `v` at its start. */
  lemma CanonicalDeclEnd(v: Var, x: int)
    ensures DeclEndAt(Canonical(v, x), 0, v) == Some(5 + |Name(v)|)
  {
    var n := Name(v);
    var head := "int " + n + "=";
    assert Canonical(v, x) == head + (IntToString(x) + ";\n");
    HeadDeclEnd(v, IntToString(x) + ";\n");
  }

  /** The write pattern for `v` matches `int NAME=` at the start of any text
      that begins with it, and ends right after the `=`. */
  lemma HeadDeclEnd(v: Var, tail: string)
    ensures DeclEndAt("int " + Name(v) + "=" + tail, 0, v) == Some(5 + |Name(v)|)
  {
    var n := Name(v);
    var c := "int " + n + "=" + tail;
    assert c[..3] == "int";
    assert c[3] == ' ' && c[4] == n[0];
    assert SkipSpaces(c, 4) == 4;
    assert c[4..4 + |n|] == n;
    assert c[4 + |n|] == '=';
    assert SkipSpaces(c, 4 + |n|) == 4 + |n|;
  }

  /** A canonical line declares its own variable and no other one. */
  lemma CanonicalDeclares(v: Var, w: Var, x: int)
    ensures Declares(Canonical(v, x), w) <==> v == w
  {
    var c := Canonical(v, x);
    if v == w {
      CanonicalDeclEnd(v, x);
      assert FindDecl(c, v, 0) == Some(0);
    } else if FindDecl(c, w, 0).Some? {
      CanonicalNoOtherDecl(v, w, x, FindDecl(c, w, 0).value);
    }
  }

  /** No match of another variable's write pattern starts anywhere in a
      canonical line: the `int` of such a match would have to be the line's
      own, and then the names would have to agree. */
  lemma CanonicalNoOtherDecl(v: Var, w: Var, x: int, k: nat)
    requires v != w
    ensures DeclEndAt(Canonical(v, x), k, w).None?
  {
    var c := Canonical(v, x);
    if DeclEndAt(c, k, w).Some? {
      DeclShape(c, k, w);
      assert c[k + 2] == c[k..k + 3][2] == 't';
      CanonicalOneT(v, x, k + 2);
      CanonicalNameAt(v, w, x);
    }
  }

  /** What a match of the write pattern at `k` consists of. */
  lemma DeclShape(s: string, k: nat, v: Var)
    requires DeclEndAt(s, k, v).Some?
    ensures StartsAt(s, k, "int") && StartsAt(s, SkipSpaces(s, k + 3), Name(v))
  {
  }

  /** After the leading `int ` of a canonical line comes its own name, never
      another variable's. */
  lemma CanonicalNameAt(v: Var, w: Var, x: int)
    requires v != w
    ensures |Canonical(v, x)| > 4 && SkipSpaces(Canonical(v, x), 3) == 4
    ensures !StartsAt(Canonical(v, x), 4, Name(w))
  {
    var c := Canonical(v, x);
    CanonicalHead(v, x);
    assert IsSpace(c[3]) && !IsSpace(c[4]);
    assert SkipSpaces(c, 4) == 4;
  }

  /** The fifth character of a canonical line is the first letter of its
      variable's name, and the names' first letters differ. */
  lemma CanonicalHead(v: Var, x: int)
    ensures |Canonical(v, x)| > 4 && Canonical(v, x)[4] == Name(v)[0]
    ensures forall w :: w != v ==> Name(w)[0] != Name(v)[0]
  {
  }

  lemma CanonicalBranch(v: Var, x: int)
    ensures Branch(Canonical(v, x)) == Some(v)
  {
    CanonicalDeclares(v, Address, x);
    CanonicalDeclares(v, Sine, x);
    CanonicalDeclares(v, Cosine, x);
  }

  /** Reading a canonical line of `v` gives back its value when that value
      has no minus sign. */
  lemma CanonicalReadOwn(v: Var, x: int)
    requires x >= 0
    ensures FirstValue(Canonical(v, x), v, 0) == Some(x)
  {
    var c, n, d := Canonical(v, x), Name(v), IntToString(x);
    var e := 5 + |n|;
    CanonicalDeclEnd(v, x);
    CanonicalDigits(v, x);
    assert SkipSpaces(c, e) == e;
    SkipDigitsRun(c, e, e + |d|);
    NatToStringRoundTrip(x);
    assert ValueAt(c, 0, v) == Some(x);
  }

  /** Where the digits of a canonical line sit: right after the `=`, and
      followed by the `;`. */
  lemma CanonicalDigits(v: Var, x: int)
    requires x >= 0
    ensures var c, e, d := Canonical(v, x), 5 + |Name(v)|, IntToString(x);
            && e + |d| < |c| && c[e..e + |d|] == d && c[e + |d|] == ';'
            && (forall k :: e <= k < e + |d| ==> IsDigit(c[k]))
            && !IsSpace(c[e]) && !IsDigit(c[e + |d|])
  {
    var c, n, d := Canonical(v, x), Name(v), IntToString(x);
    var e := 5 + |n|;
    assert c == ("int " + n + "=") + d + ";\n";
    assert |"int " + n + "="| == e;
    assert c[e..e + |d|] == d;
    assert forall k :: e <= k < e + |d| ==> c[k] == d[k - e];
  }

  /** A canonical line of `v` gives nothing to the read pattern of any other
      variable. */
  lemma CanonicalReadOther(v: Var, w: Var, x: int)
    requires v != w
    ensures FirstValue(Canonical(v, x), w, 0).None?
  {
    var c := Canonical(v, x);
    CanonicalDeclares(v, w, x);
    if FirstValue(c, w, 0).Some? {
      ValueImpliesDeclares(c, w, 0);
    }
  }

  lemma {:induction false} SkipDigitsRun(s: string, i: nat, j: nat)
    requires i <= j < |s|
    requires forall k :: i <= k < j ==> IsDigit(s[k])
    requires !IsDigit(s[j])
    ensures SkipDigits(s, i) == j
    decreases j - i
  {
    if i < j {
      SkipDigitsRun(s, i + 1, j);
    }
  }

  // ---------------------------------------------------------------------------
  // Properties of update_settings.

  /** Applying the same triple twice gives the same lines as applying it once. */
  lemma RewriteIdempotent(lines: seq<string>, s: Settings)
    ensures RewriteAll(RewriteAll(lines, s), s) == RewriteAll(lines, s)
  {
    var once := RewriteAll(lines, s);
    forall i | 0 <= i < |lines|
      ensures RewriteLine(once[i], s) == once[i]
    {
      match Branch(lines[i])
      case Some(v) => CanonicalBranch(v, ValueOf(s, v));
      case None =>
    }
  }

  /** When every variable was rewritten and the requested values are not
      negative, the verifying re-read returns exactly the requested triple. */
  lemma ReadBack(lines: seq<string>, s: Settings)
    requires Updated(lines) == {Address, Sine, Cosine}
    requires s.address >= 0 && s.sine >= 0 && s.cosine >= 0
    ensures ReadSettingsFromLines(RewriteAll(lines, s)) == s
  {
    ReadBackVar(lines, s, Address);
    ReadBackVar(lines, s, Sine);
    ReadBackVar(lines, s, Cosine);
  }

  lemma ReadBackVar(lines: seq<string>, s: Settings, v: Var)
    requires v in Updated(lines)
    requires ValueOf(s, v) >= 0
    ensures ReadVar(RewriteAll(lines, s), v) == Some(ValueOf(s, v) as nat)
  {
    var out := RewriteAll(lines, s);
    var i0 :| 0 <= i0 < |lines| && Branch(lines[i0]) == Some(v);
    var first := FirstOf(lines, v, i0);
    CanonicalReadOwn(v, ValueOf(s, v));
    forall j | 0 <= j < first
      ensures FirstValue(out[j], v, 0).None?
    {
      match Branch(lines[j])
      case Some(w) => CanonicalReadOther(w, v, ValueOf(s, w));
      case None =>
        if FirstValue(lines[j], v, 0).Some? {
          ValueImpliesDeclares(lines[j], v, 0);
        }
    }
    ReadVarFirst(out, v, first);
  }

  /** The first line that takes the branch of `v`. */
  lemma {:induction false} FirstOf(lines: seq<string>, v: Var, i0: nat) returns (first: nat)
    requires i0 < |lines| && Branch(lines[i0]) == Some(v)
    ensures first < |lines| && Branch(lines[first]) == Some(v)
    ensures forall j :: 0 <= j < first ==> Branch(lines[j]) != Some(v)
    decreases i0
  {
    if exists j :: 0 <= j < i0 && Branch(lines[j]) == Some(v) {
      var j :| 0 <= j < i0 && Branch(lines[j]) == Some(v);
      first := FirstOf(lines, v, j);
    } else {
      first := i0;
    }
  }

  // ---------------------------------------------------------------------------
  // change_address_workflow

  /** How one typed answer to a value prompt is handled: blank keeps the
      current value, an integer in range is taken, anything else re-prompts. */
  function Entry(text: string, current: int, lo: int, hi: int): (r: Option<int>)
    ensures r.Some? ==> r.value == current || lo <= r.value <= hi
  {
    var t := Strip(text);
    if t == [] then Some(current)
    else
      match ParseInt(t)
      case Some(n) => if lo <= n <= hi then Some(n) else None
      case None => None
  }

  /** A blank answer keeps the current value; any other accepted answer is
      the integer it denotes, within the range. */
  lemma EntryMeaning(text: string, current: int, lo: int, hi: int)
    ensures Strip(text) == [] ==> Entry(text, current, lo, hi) == Some(current)
    ensures Strip(text) != [] && Entry(text, current, lo, hi).Some? ==>
              var r := Entry(text, current, lo, hi);
              lo <= r.value <= hi && ParseInt(Strip(text)) == r
  {
  }

  /** The other direction: a non-blank answer that is an integer in range
      is accepted as that integer. */
  lemma EntryAccepts(text: string, current: int, lo: int, hi: int)
    requires Strip(text) != [] && ParseInt(Strip(text)).Some?
    requires lo <= ParseInt(Strip(text)).value <= hi
    ensures Entry(text, current, lo, hi) == ParseInt(Strip(text))
  {
  }

  /** Every answer in `inputs[from..to]` is rejected and asked again. */
  predicate Rejected(inputs: seq<string>, from: nat, to: nat, current: int, lo: int, hi: int)
    requires to <= |inputs|
  {
    forall k :: from <= k < to ==> Entry(inputs[k], current, lo, hi).None?
  }

  /** The first accepted answer at or after `start` and the position just
      past it, or None when every remaining answer is rejected. */
  function FirstAnswer(inputs: seq<string>, start: nat, current: int, lo: int, hi: int): Option<(int, nat)>
    decreases |inputs| - start
  {
    if start >= |inputs| then None
    else
      match Entry(inputs[start], current, lo, hi)
      case Some(v) => Some((v, start + 1))
      case None => FirstAnswer(inputs, start + 1, current, lo, hi)
  }

  /** FirstAnswer reports the first answer the prompt accepts: all answers
      before it are rejected, and there is none exactly when all are. */
  lemma {:induction false} FirstAnswerMeaning(inputs: seq<string>, start: nat, current: int, lo: int, hi: int)
    requires start <= |inputs|
    ensures FirstAnswer(inputs, start, current, lo, hi).None? <==> Rejected(inputs, start, |inputs|, current, lo, hi)
    ensures FirstAnswer(inputs, start, current, lo, hi).Some? ==>
              var (v, next) := FirstAnswer(inputs, start, current, lo, hi).value;
              && start < next <= |inputs|
              && Entry(inputs[next - 1], current, lo, hi) == Some(v)
              && Rejected(inputs, start, next - 1, current, lo, hi)
    decreases |inputs| - start
  {
    if start < |inputs| {
      var e := Entry(inputs[start], current, lo, hi);
      if e.None? {
        FirstAnswerMeaning(inputs, start + 1, current, lo, hi);
        assert FirstAnswer(inputs, start, current, lo, hi) == FirstAnswer(inputs, start + 1, current, lo, hi);
        RejectedCons(inputs, start, |inputs|, current, lo, hi);
        if FirstAnswer(inputs, start, current, lo, hi).Some? {
          var next := FirstAnswer(inputs, start, current, lo, hi).value.1;
          RejectedCons(inputs, start, next - 1, current, lo, hi);
        }
      } else {
        assert FirstAnswer(inputs, start, current, lo, hi) == Some((e.value, start + 1));
        assert !Rejected(inputs, start, |inputs|, current, lo, hi);
      }
    }
  }

  /** Rejecting a first answer and then a run of answers rejects them all. */
  lemma RejectedCons(inputs: seq<string>, from: nat, to: nat, current: int, lo: int, hi: int)
    requires from < to <= |inputs| && Entry(inputs[from], current, lo, hi).None?
    ensures Rejected(inputs, from, to, current, lo, hi) <==> Rejected(inputs, from + 1, to, current, lo, hi)
  {
  }

  /** One `while True` prompt loop, reading answers from `inputs[start..]`.
      Running out of answers is the EOFError that ends the workflow. */
  method PromptValue(inputs: seq<string>, start: nat, current: int, lo: int, hi: int)
    returns (value: int, next: nat, ok: bool)
    requires start <= |inputs|
    ensures start <= next <= |inputs|
    ensures ok ==> start < next && Entry(inputs[next - 1], current, lo, hi) == Some(value)
                   && Rejected(inputs, start, next - 1, current, lo, hi)
    ensures ok ==> value == current || lo <= value <= hi
    ensures !ok ==> next == |inputs| && Rejected(inputs, start, next, current, lo, hi)
    ensures FirstAnswer(inputs, start, current, lo, hi) == (if ok then Some((value, next)) else None)
  {
    next, ok, value := start, false, current;
    while next < |inputs|
      invariant start <= next <= |inputs|
      invariant Rejected(inputs, start, next, current, lo, hi)
      invariant FirstAnswer(inputs, start, current, lo, hi) == FirstAnswer(inputs, next, current, lo, hi)
    {
      var answer := Entry(inputs[next], current, lo, hi);
      FirstAnswerStep(inputs, next, current, lo, hi);
      if answer.Some? {
        return answer.value, next + 1, true;
      }
      RejectedStep(inputs, start, next, current, lo, hi);
      next := next + 1;
    }
  }

  lemma FirstAnswerStep(inputs: seq<string>, next: nat, current: int, lo: int, hi: int)
    requires next < |inputs|
    ensures var e := Entry(inputs[next], current, lo, hi);
            FirstAnswer(inputs, next, current, lo, hi)
              == if e.Some? then Some((e.value, next + 1)) else FirstAnswer(inputs, next + 1, current, lo, hi)
  {
  }

  lemma RejectedStep(inputs: seq<string>, from: nat, to: nat, current: int, lo: int, hi: int)
    requires to < |inputs| && Rejected(inputs, from, to, current, lo, hi)
    requires Entry(inputs[to], current, lo, hi).None?
    ensures Rejected(inputs, from, to + 1, current, lo, hi)
  {
  }

  /** A y/n answer: `input().lower().strip() == 'y'`. */
  predicate IsYes(text: string)
  {
    Strip(text) == "y" || Strip(text) == "Y"
  }

  /** The settings the three prompts choose, each answered in turn from
      `inputs`, and the position of the answer that follows them (the
      confirmation); None when the answers run out first. */
  function Prompts(inputs: seq<string>, cur: Settings): Option<(Settings, nat)>
  {
    match FirstAnswer(inputs, 0, cur.address, 0, 255)
    case None => None
    case Some((address, i)) =>
      match FirstAnswer(inputs, i, cur.sine, 0, 1024)
      case None => None
      case Some((sine, j)) =>
        match FirstAnswer(inputs, j, cur.cosine, 0, 1024)
        case None => None
        case Some((cosine, k)) => Some((Settings(address, sine, cosine), k))
  }

  /** The prompts, answered as `p` says, are confirmed: the answer after
      them is yes. */
  predicate Confirmed(inputs: seq<string>, p: Option<(Settings, nat)>)
  {
    p.Some? && p.value.1 < |inputs| && IsYes(inputs[p.value.1])
  }

  /** After the settings are written, the answer that follows the
      confirmation is there, and it either declines the build or the build
      and upload succeed. */
  predicate Proceeds(inputs: seq<string>, p: Option<(Settings, nat)>, toolchainOk: bool)
  {
    p.Some? && p.value.1 + 1 < |inputs| && (!IsYes(inputs[p.value.1 + 1]) || toolchainOk)
  }

  lemma ProceedsAt(inputs: seq<string>, s: Settings, k: nat, toolchainOk: bool)
    ensures Confirmed(inputs, Some((s, k))) <==> k < |inputs| && IsYes(inputs[k])
    ensures Proceeds(inputs, Some((s, k)), toolchainOk) <==> k + 1 < |inputs| && (!IsYes(inputs[k + 1]) || toolchainOk)
  {
  }

  /** Three blank answers keep the current settings, and the fourth answer is
      the confirmation. */
  lemma BlankAnswersKeep(inputs: seq<string>, cur: Settings)
    requires |inputs| >= 3 && inputs[0] == "" && inputs[1] == "" && inputs[2] == ""
    ensures Prompts(inputs, cur) == Some((cur, 3))
  {
    assert Strip("") == [];
  }

  /** The three prompt loops and the confirmation question of
      change_address_workflow. `k` is the position of the confirmation
      answer. */
  method AskSettings(inputs: seq<string>, current: Settings) returns (chosen: Option<Settings>, k: nat)
    ensures var p := Prompts(inputs, current);
            chosen == (if Confirmed(inputs, p) then Some(p.value.0) else None)
    ensures chosen.Some? ==> Prompts(inputs, current) == Some((chosen.value, k))
    ensures chosen.Some? ==>
              && (chosen.value.address == current.address || 0 <= chosen.value.address <= 255)
              && (chosen.value.sine == current.sine || 0 <= chosen.value.sine <= 1024)
              && (chosen.value.cosine == current.cosine || 0 <= chosen.value.cosine <= 1024)
  {
    chosen, k := None, 0;
    var address, i, got := PromptValue(inputs, 0, current.address, 0, 255);
    if !got { return; }
    var sine, j, gotS := PromptValue(inputs, i, current.sine, 0, 1024);
    if !gotS { return; }
    var cosine;
    cosine, k, got := PromptValue(inputs, j, current.cosine, 0, 1024);
    if !got { return; }
    assert Prompts(inputs, current) == Some((Settings(address, sine, cosine), k));
    ProceedsAt(inputs, Settings(address, sine, cosine), k, false);
    if k < |inputs| && IsYes(inputs[k]) {
      chosen := Some(Settings(address, sine, cosine));
    }
  }

  /** change_address_workflow up to and including update_settings; the
      compile-and-upload step is the outcome `toolchainOk` of external tools.
      Running out of answers is the exception that ends it with False. */
  method ChangeAddressWorkflow(f: SketchFile, inputs: seq<string>, toolchainOk: bool)
    returns (ok: bool, chosen: Option<Settings>)
    modifies f
    ensures f.writable == old(f.writable)
    ensures var p := Prompts(inputs, old(ReadCurrentSettings(f)));
            chosen == (if Confirmed(inputs, p) then Some(p.value.0) else None)
    ensures chosen.Some? ==>
              var cur := old(ReadCurrentSettings(f));
              && (chosen.value.address == cur.address || 0 <= chosen.value.address <= 255)
              && (chosen.value.sine == cur.sine || 0 <= chosen.value.sine <= 1024)
              && (chosen.value.cosine == cur.cosine || 0 <= chosen.value.cosine <= 1024)
    ensures f.text == (if chosen.Some? && old(f.text).Some? && f.writable
                       then Some(RewriteAll(old(f.text).value, chosen.value)) else old(f.text))
    ensures ok <==> chosen.Some? && old(f.text).Some? && f.writable
                    && Proceeds(inputs, Prompts(inputs, old(ReadCurrentSettings(f))), toolchainOk)
    ensures f.text != old(f.text) ==> old(f.text).Some? && chosen.Some? && f.text == Some(RewriteAll(old(f.text).value, chosen.value))
    ensures chosen.None? ==> !ok && f.text == old(f.text)
  {
    var current := ReadCurrentSettings(f);
    var k;
    chosen, k := AskSettings(inputs, current);
    if chosen.None? {
      return false, None;
    }
    ProceedsAt(inputs, chosen.value, k, toolchainOk);
    var updated, report := UpdateSettings(f, chosen.value.address, chosen.value.sine, chosen.value.cosine);
    if !updated || k + 1 >= |inputs| {
      return false, chosen;
    }
    if !IsYes(inputs[k + 1]) {
      return true, chosen;
    }
    ok := toolchainOk;
  }
}
