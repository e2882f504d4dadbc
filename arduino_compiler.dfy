/** The source-to-source step of the ATtiny1616 build: the sketch name, the
    function prototypes extracted from the sketch, and their insertion before
    the first `#include`, followed by the `Arduino.h` header of the C++ file
    handed to the compiler. */
module ArduinoCompiler {
  import opened Text

  // ---------------------------------------------------------------------------
  // The sketch name.

  predicate IsSeparator(c: char)
  {
    c == '/' || c == '\\'
  }

  /** os.path.basename: the text after the last path separator. */
  function Basename(path: string): (b: string)
    ensures forall k :: 0 <= k < |b| ==> !IsSeparator(b[k])
    ensures EndsWith(path, b)
    ensures |b| == |path| || IsSeparator(path[|path| - |b| - 1])
  {
    if |path| == 0 then ""
    else if IsSeparator(path[|path| - 1]) then ""
    else
      var init, last := path[..|path| - 1], path[|path| - 1];
      var b := Basename(init);
      assert path == init + [last];
      assert path[|path| - |b| - 1..] == init[|init| - |b|..] + [last];
      assert |b| < |init| ==> path[|path| - |b| - 2] == init[|init| - |b| - 1];
      b + [last]
  }

  /** The base name with a trailing `.ino` removed. */
  function SketchName(path: string): (n: string)
    ensures forall k :: 0 <= k < |n| ==> !IsSeparator(n[k])
    ensures EndsWith(Basename(path), ".ino") ==> n + ".ino" == Basename(path)
    ensures !EndsWith(Basename(path), ".ino") ==> n == Basename(path)
  {
    var b := Basename(path);
    if EndsWith(b, ".ino") then
      assert b == b[..|b| - 4] + ".ino";
      b[..|b| - 4]
    else b
  }

  /** A sketch `NAME.ino` in any directory is built under the name NAME. */
  lemma SketchNameOfIno(dir: string, name: string)
    requires forall k :: 0 <= k < |name| ==> !IsSeparator(name[k])
    ensures SketchName(dir + "/" + name + ".ino") == name
  {
    var path := dir + "/" + name + ".ino";
    BasenameOfJoin(dir, name + ".ino");
    assert path == dir + "/" + (name + ".ino");
  }

  lemma {:induction false} BasenameOfJoin(dir: string, file: string)
    requires forall k :: 0 <= k < |file| ==> !IsSeparator(file[k])
    ensures Basename(dir + "/" + file) == file
    decreases |file|
  {
    var path := dir + "/" + file;
    if |file| > 0 {
      assert path[..|path| - 1] == dir + "/" + file[..|file| - 1];
      BasenameOfJoin(dir, file[..|file| - 1]);
      assert file == file[..|file| - 1] + [file[|file| - 1]];
    }
  }

  // ---------------------------------------------------------------------------
  // Function definitions: the pattern
  // \b(void|int|...|String)\s+([a-zA-Z0-9_]+)\s*\([^)]*\)\s*\{

  /** The return-type keywords, in the order the alternation tries them. */
  const Keywords: seq<string> := ["void", "int", "float", "double", "boolean", "bool", "char",
                                  "byte", "unsigned", "long", "short", "size_t", "String"]

  /** The Arduino entry points that get no prototype. */
  const Special: seq<string> := ["setup", "loop"]

  /** One match: where it starts, the keyword and the name captured, where the
      name starts, and the index just after the closing `{`. */
  datatype FnMatch = FnMatch(start: nat, keyword: string, nameStart: nat, name: string, end: nat)

  /** A non-empty run of word characters. */
  predicate Word(w: string)
  {
    |w| > 0 && forall k :: 0 <= k < |w| ==> IsWordChar(w[k])
  }

  lemma KeywordsAreWords()
    ensures forall k :: 0 <= k < |Keywords| ==> Word(Keywords[k])
  {
  }

  /** A well-formed match of `s`. */
  predicate Shaped(s: string, m: FnMatch)
  {
    && m.start + |m.keyword| < m.nameStart
    && m.nameStart + |m.name| < m.end <= |s|
    && |m.name| > 0
    && StartsAt(s, m.start, m.keyword)
    && Word(m.keyword)
    && s[m.nameStart..m.nameStart + |m.name|] == m.name
    && (forall k :: m.start + |m.keyword| <= k < m.nameStart ==> IsSpace(s[k]))
    && (forall k :: 0 <= k < |m.name| ==> IsWordChar(m.name[k]))
    && s[m.end - 1] == '{'
  }

  /** The part of the pattern after the keyword `kw`, tried at `i`:
      `\s+`, then the name `[a-zA-Z0-9_]+`, then the parameter list. */
  function MatchWith(s: string, i: nat, kw: string): (r: Option<FnMatch>)
    ensures r.Some? ==> r.value.start == i && r.value.keyword == kw
    ensures r.Some? && Word(kw) ==> Shaped(s, r.value)
  {
    if !StartsAt(s, i, kw) then None
    else
      var j := SkipSpaces(s, i + |kw|);
      if j == i + |kw| then None
      else
        var n := SkipWordChars(s, j);
        if n == j then None
        else
          match ParamsEnd(s, n)
          case None => None
          case Some(e) =>
            MatchShaped(s, i, kw, j, n, e);
            Some(FnMatch(i, kw, j, s[j..n], e))
  }

  /** The pieces MatchWith finds make a well-formed match. */
  lemma MatchShaped(s: string, i: nat, kw: string, j: nat, n: nat, e: nat)
    requires StartsAt(s, i, kw) && i + |kw| < j < n < e <= |s| && s[e - 1] == '{'
    requires forall k :: i + |kw| <= k < j ==> IsSpace(s[k])
    requires forall k :: j <= k < n ==> IsWordChar(s[k])
    ensures Word(kw) ==> Shaped(s, FnMatch(i, kw, j, s[j..n], e))
  {
    var name := s[j..n];
    assert forall k :: 0 <= k < |name| ==> name[k] == s[j + k];
    assert s[j..j + |name|] == name;
  }

  /** `\s*\([^)]*\)\s*\{` at `n`: the index just after the `{`. */
  function ParamsEnd(s: string, n: nat): (r: Option<nat>)
    requires n <= |s|
    ensures r.Some? ==> n < r.value <= |s| && s[r.value - 1] == '{'
  {
    var q := SkipSpaces(s, n);
    if q == |s| || s[q] != '(' then None
    else
      match Find(s, ')', q + 1)
      case None => None
      case Some(rp) =>
        var b := SkipSpaces(s, rp + 1);
        if b < |s| && s[b] == '{' then Some(b + 1) else None
  }

  /** The alternation: the first keyword, in order, for which the rest of
      the pattern matches. */
  function TryKeywords(s: string, i: nat, kws: seq<string>): (r: Option<FnMatch>)
    ensures r.Some? ==> r.value.start == i && r.value.keyword in kws
    ensures r.Some? ==> MatchWith(s, i, r.value.keyword) == r
    ensures r.Some? && (forall k :: 0 <= k < |kws| ==> Word(kws[k])) ==> Shaped(s, r.value)
  {
    if |kws| == 0 then None
    else if MatchWith(s, i, kws[0]).Some? then MatchWith(s, i, kws[0])
    else TryKeywords(s, i, kws[1..])
  }

  /** The whole pattern tried at `i`, word boundary included. */
  function FnMatchAt(s: string, i: nat): (r: Option<FnMatch>)
    ensures r.Some? ==> r.value.start == i && Shaped(s, r.value) && r.value.keyword in Keywords
  {
    if i > 0 && i <= |s| && IsWordChar(s[i - 1]) then None
    else
      KeywordsAreWords();
      TryKeywords(s, i, Keywords)
  }

  /** The leftmost match starting at or after `from`. */
  function NextMatch(s: string, from: nat): (r: Option<FnMatch>)
    ensures r.Some? ==> from <= r.value.start && Shaped(s, r.value)
    decreases |s| + 1 - from
  {
    if from > |s| then None
    else
      var m := FnMatchAt(s, from);
      if m.Some? then m else NextMatch(s, from + 1)
  }

  /** NextMatch reports a match of the pattern at its start. */
  lemma {:induction false} NextMatchIsMatch(s: string, from: nat)
    requires NextMatch(s, from).Some?
    ensures FnMatchAt(s, NextMatch(s, from).value.start) == NextMatch(s, from)
    decreases |s| + 1 - from
  {
    if FnMatchAt(s, from).None? {
      NextMatchIsMatch(s, from + 1);
    }
  }

  /** re.finditer: successive leftmost matches, each search resuming where
      the previous match ended. */
  function Matches(s: string, from: nat): (ms: seq<FnMatch>)
    ensures forall k :: 0 <= k < |ms| ==> from <= ms[k].start && Shaped(s, ms[k])
    ensures forall k :: 0 <= k < |ms| - 1 ==> ms[k].end <= ms[k + 1].start
    decreases |s| + 1 - from
  {
    match NextMatch(s, from)
    case None => []
    case Some(m) =>
      var rest := Matches(s, m.end);
      assert forall k :: 1 <= k < |rest| + 1 ==> ([m] + rest)[k] == rest[k - 1];
      [m] + rest
  }

  /** Every reported match is a match of the pattern at its start. */
  lemma {:induction false} MatchesAreMatches(s: string, from: nat, k: nat)
    requires k < |Matches(s, from)|
    ensures FnMatchAt(s, Matches(s, from)[k].start) == Some(Matches(s, from)[k])
    decreases |s| + 1 - from
  {
    var m := NextMatch(s, from).value;
    if k > 0 {
      MatchesAreMatches(s, m.end, k - 1);
    } else {
      NextMatchIsMatch(s, from);
    }
  }

  /** No match is skipped: between `from` and the first reported match, and
      between two consecutive reported matches, the pattern matches nowhere. */
  lemma {:induction false} NextMatchLeftmost(s: string, from: nat, i: nat)
    requires from <= i
    requires NextMatch(s, from).None? || i < NextMatch(s, from).value.start
    ensures FnMatchAt(s, i).None?
    decreases |s| + 1 - from
  {
    if from <= |s| && from < i {
      NextMatchLeftmost(s, from + 1, i);
    } else if i > |s| {
      assert !StartsAt(s, i, Keywords[0]);
      NoMatchPastEnd(s, i, Keywords);
    }
  }

  lemma {:induction false} NoMatchPastEnd(s: string, i: nat, kws: seq<string>)
    requires i > |s|
    ensures TryKeywords(s, i, kws).None?
  {
    if |kws| > 0 {
      NoMatchPastEnd(s, i, kws[1..]);
    }
  }

  // ---------------------------------------------------------------------------
  // The prototypes.

  /** `s.find('{', start)`: the first `{` at or after the match start (which
      may lie inside the parameter list). */
  function SignatureEnd(s: string, m: FnMatch): (r: Option<nat>)
  {
    Find(s, '{', m.start)
  }

  /** The prototype for a match: everything from the match start up to the
      first `{`, stripped, followed by `;`. */
  function Prototype(s: string, m: FnMatch, e: nat): string
    requires m.start <= e <= |s|
  {
    Strip(s[m.start..e]) + ";"
  }

  /** The declarations for a sequence of matches, skipping setup and loop. */
  function Prototypes(s: string, ms: seq<FnMatch>): seq<string>
  {
    if |ms| == 0 then []
    else
      var m := ms[|ms| - 1];
      var before := Prototypes(s, ms[..|ms| - 1]);
      if m.name in Special then before
      else
        match SignatureEnd(s, m)
        case Some(e) => before + [Prototype(s, m, e)]
        case None => before
  }

  /** The `for match in matches` loop that fills `function_declarations`,
      over the matches `ms` of the sketch `s`. */
  method CollectPrototypes(s: string, ms: seq<FnMatch>) returns (decls: seq<string>)
    ensures decls == Prototypes(s, ms)
  {
    decls := [];
    for i := 0 to |ms|
      invariant decls == Prototypes(s, ms[..i])
    {
      var m := ms[i];
      PrototypesPrefix(s, ms, i);
      if m.name in Special {
        continue;
      }
      var e := SignatureEnd(s, m);
      if e.Some? {
        decls := decls + [Prototype(s, m, e.value)];
      }
    }
    assert ms[..|ms|] == ms;
  }

  /** The declarations for one more match of the loop. */
  lemma PrototypesPrefix(s: string, ms: seq<FnMatch>, i: nat)
    requires i < |ms|
    ensures Prototypes(s, ms[..i + 1]) == Prototypes(s, ms[..i]) +
              (if ms[i].name in Special || SignatureEnd(s, ms[i]).None? then []
               else [Prototype(s, ms[i], SignatureEnd(s, ms[i]).value)])
  {
    assert ms[..i + 1][..i] == ms[..i];
  }

  /** For every match the `{` search succeeds, and the prototype reproduces
      the definition's head: it begins with the keyword, the whitespace and
      the function name exactly as written, and ends with `;`. */
  lemma PrototypeShape(s: string, m: FnMatch)
    requires Shaped(s, m)
    ensures SignatureEnd(s, m).Some?
    ensures var e := SignatureEnd(s, m).value;
            var head := s[m.start..m.nameStart + |m.name|];
            && m.nameStart + |m.name| <= e
            && |head| < |Prototype(s, m, e)|
            && Prototype(s, m, e)[..|head|] == head
            && Prototype(s, m, e)[|Prototype(s, m, e)| - 1] == ';'
  {
    var L := m.nameStart + |m.name|;
    SignatureEndAfterName(s, m);
    var e := SignatureEnd(s, m).value;
    var t := s[m.start..e];
    assert t[0] == s[m.start] == m.keyword[0] by { assert s[m.start..m.start + |m.keyword|] == m.keyword; }
    assert t[L - 1 - m.start] == m.name[|m.name| - 1] by {
      assert s[L - 1] == s[m.nameStart..L][|m.name| - 1];
    }
    StripKeepsHead(t, L - m.start);
    assert t[..L - m.start] == s[m.start..L];
  }

  /** The first `{` from the match start lies after the function name. */
  lemma SignatureEndAfterName(s: string, m: FnMatch)
    requires Shaped(s, m)
    ensures SignatureEnd(s, m).Some? && SignatureEnd(s, m).value >= m.nameStart + |m.name|
  {
    assert s[m.end - 1] == '{';
    forall k | m.start <= k < m.nameStart + |m.name|
      ensures s[k] != '{'
    {
      if k < m.start + |m.keyword| {
        assert s[k] == s[m.start..m.start + |m.keyword|][k - m.start];
        assert IsWordChar(m.keyword[k - m.start]);
      } else if k >= m.nameStart {
        assert s[k] == s[m.nameStart..m.nameStart + |m.name|][k - m.nameStart];
      }
    }
  }

  /** Stripping a text that begins with a non-space keeps every character up
      to its last non-space. */
  lemma StripKeepsHead(t: string, L: nat)
    requires 0 < L <= |t| && !IsSpace(t[0]) && !IsSpace(t[L - 1])
    ensures L <= |Strip(t)| && Strip(t)[..L] == t[..L]
  {
    assert SkipSpaces(t, 0) == 0;
    var hi := TrimEnd(t, 0, |t|);
    assert hi >= L;
    assert Strip(t) == t[..hi];
  }

  /** The number of matches whose name is neither setup nor loop. */
  function PlainCount(ms: seq<FnMatch>): nat
  {
    if |ms| == 0 then 0
    else PlainCount(ms[..|ms| - 1]) + (if ms[|ms| - 1].name in Special then 0 else 1)
  }

  /** Exactly one declaration per match whose name is neither setup nor loop. */
  lemma {:induction false} PrototypesCount(s: string, ms: seq<FnMatch>)
    requires forall k :: 0 <= k < |ms| ==> Shaped(s, ms[k])
    ensures |Prototypes(s, ms)| == PlainCount(ms)
  {
    if |ms| > 0 {
      var init := ms[..|ms| - 1];
      assert forall k :: 0 <= k < |init| ==> init[k] == ms[k];
      PrototypesCount(s, init);
      PrototypeShape(s, ms[|ms| - 1]);
    }
  }

  /** setup and loop never get a prototype. */
  lemma {:induction false} NoSpecialPrototype(s: string, ms: seq<FnMatch>, d: string)
    requires d in Prototypes(s, ms)
    ensures exists k :: 0 <= k < |ms| && ms[k].name !in Special && FromMatch(s, ms[k], d)
  {
    var m := ms[|ms| - 1];
    var init := ms[..|ms| - 1];
    if d in Prototypes(s, init) {
      NoSpecialPrototype(s, init, d);
      var k :| 0 <= k < |init| && init[k].name !in Special && FromMatch(s, init[k], d);
      assert ms[k] == init[k];
    }
  }

  /** The declarations keep the order of the definitions: of two
      declarations, the earlier one comes from an earlier match. */
  lemma {:induction false} PrototypesOrder(s: string, ms: seq<FnMatch>, i: nat, j: nat) returns (p: nat, q: nat)
    requires i < j < |Prototypes(s, ms)|
    ensures p < q < |ms|
    ensures FromMatch(s, ms[p], Prototypes(s, ms)[i]) && FromMatch(s, ms[q], Prototypes(s, ms)[j])
  {
    var init := ms[..|ms| - 1];
    var before := Prototypes(s, init);
    PrototypesLast(s, ms);
    if j < |before| {
      p, q := PrototypesOrder(s, init, i, j);
      FromInit(s, ms, i, p);
      FromInit(s, ms, j, q);
    } else {
      NoSpecialPrototype(s, init, before[i]);
      p :| p < |init| && init[p].name !in Special && FromMatch(s, init[p], before[i]);
      q := |ms| - 1;
      FromInit(s, ms, i, p);
      assert j == |before| && |Prototypes(s, ms)| > |before|;
    }
  }

  /** A declaration made before the last match keeps its place and its
      source once the last match is added. */
  lemma FromInit(s: string, ms: seq<FnMatch>, i: nat, p: nat)
    requires |ms| > 0 && p < |ms| - 1
    requires i < |Prototypes(s, ms[..|ms| - 1])|
    requires FromMatch(s, ms[..|ms| - 1][p], Prototypes(s, ms[..|ms| - 1])[i])
    ensures i < |Prototypes(s, ms)| && FromMatch(s, ms[p], Prototypes(s, ms)[i])
  {
    PrototypesLast(s, ms);
    var before := Prototypes(s, ms[..|ms| - 1]);
    assert Prototypes(s, ms)[i] == Prototypes(s, ms)[..|before|][i];
  }

  /** `d` is the declaration made for the match `m`. */
  predicate FromMatch(s: string, m: FnMatch, d: string)
  {
    SignatureEnd(s, m).Some? && d == Prototype(s, m, SignatureEnd(s, m).value)
  }

  /** The declarations for all matches extend those for all but the last
      one, by at most the last match's own declaration. */
  lemma PrototypesLast(s: string, ms: seq<FnMatch>)
    requires |ms| > 0
    ensures var before := Prototypes(s, ms[..|ms| - 1]);
            && |before| <= |Prototypes(s, ms)| <= |before| + 1
            && Prototypes(s, ms)[..|before|] == before
            && (|Prototypes(s, ms)| > |before| ==> FromMatch(s, ms[|ms| - 1], Prototypes(s, ms)[|before|]))
  {
  }

  // ---------------------------------------------------------------------------
  // The splice.

  /** A match of `#include\s+[<"].*[>"]` starting at `i` (`.` stops at a
      line break). */
  predicate IncludeAt(s: string, i: nat)
  {
    && StartsAt(s, i, "#include")
    && var j := SkipSpaces(s, i + 8);
       && j > i + 8 && j < |s| && (s[j] == '<' || s[j] == '"')
       && CloserOnLine(s, j + 1)
  }

  /** A `>` or `"` occurs at or after `from` before the next line break. */
  predicate CloserOnLine(s: string, from: nat)
    decreases |s| - from
  {
    from < |s| && s[from] != '\n' && (s[from] == '>' || s[from] == '"' || CloserOnLine(s, from + 1))
  }

  /** The start of the first `#include` match at or after `from`. */
  function FirstInclude(s: string, from: nat): (r: Option<nat>)
    ensures r.Some? ==> from <= r.value < |s| && IncludeAt(s, r.value)
    decreases |s| - from
  {
    if from >= |s| then None
    else if IncludeAt(s, from) then Some(from)
    else FirstInclude(s, from + 1)
  }

  lemma {:induction false} FirstIncludeLeftmost(s: string, from: nat, i: nat)
    requires from <= i
    requires FirstInclude(s, from).None? || i < FirstInclude(s, from).value
    ensures !IncludeAt(s, i)
    decreases |s| - from
  {
    if from < |s| && from < i {
      FirstIncludeLeftmost(s, from + 1, i);
    }
  }

  /** The block of prototypes that is inserted. */
  function Block(decls: seq<string>): string
  {
    "// Function prototypes\n" + Join(decls, "\n") + "\n\n"
  }

  /** `new_content`: the block before the first `#include`, preceded by a line
      break, or at the very top when there is no `#include`. */
  function Splice(content: string, decls: seq<string>): string
  {
    match FirstInclude(content, 0)
    case Some(p) => content[..p] + ("\n" + Block(decls)) + content[p..]
    case None => Block(decls) + content
  }

  /** Nothing of the sketch is lost or reordered: the result is the sketch
      with the prototype block inserted at the first `#include`, after a line
      break, or at position 0 without one. */
  lemma SpliceKeepsSketch(content: string, decls: seq<string>)
    ensures var r := Splice(content, decls);
            var at := FirstInclude(content, 0);
            var p := if at.Some? then at.value else 0;
            var ins := if at.Some? then "\n" + Block(decls) else Block(decls);
            && p <= |content| && |r| == |content| + |ins|
            && r[..p] == content[..p]
            && r[p..p + |ins|] == ins
            && r[p + |ins|..] == content[p..]
  {
    match FirstInclude(content, 0)
    case Some(p) =>
      ThreeParts(content[..p], "\n" + Block(decls), content[p..]);
    case None =>
      ThreeParts([], Block(decls), content);
      assert [] + Block(decls) + content == Block(decls) + content;
  }

  /** The three parts of a concatenation are its slices. */
  lemma ThreeParts(a: string, b: string, c: string)
    ensures var r := a + b + c;
            && r[..|a|] == a && r[|a|..|a| + |b|] == b && r[|a| + |b|..] == c
  {
  }

  /** The C++ file handed to the preprocessor. */
  function CppText(newContent: string): (r: string)
    ensures StartsAt(r, 0, "#include <Arduino.h>\n\n") && r[22..] == newContent
  {
    "#include <Arduino.h>\n\n" + newContent
  }

  /** The two text products of the build step for a sketch. */
  method CombinedSketch(content: string) returns (decls: seq<string>, combined: string, cpp: string)
    ensures decls == Prototypes(content, Matches(content, 0))
    ensures combined == Splice(content, decls)
    ensures cpp == CppText(combined)
  {
    decls := CollectPrototypes(content, Matches(content, 0));
    combined := Splice(content, decls);
    cpp := CppText(combined);
  }
}
