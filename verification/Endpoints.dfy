/**
 The whitelist of endpoints as a language: anchored regular expressions made of literal
 characters and `[^/]+`, and the same language told segment by segment.
 */
module Endpoints {

  /** What follows from here on: nothing more, a literal character, or one or more characters
      other than the slash. */
  datatype Regex = End | Literal(c: char, rest: Regex) | Segment(rest: Regex)

  /** The expression of a pattern text between its anchors. */
  function Compile(text: string): Regex {
    if text == "" then End
    else if "[^/]+" <= text then Segment(Compile(text[5..]))
    else Literal(text[0], Compile(text[1..]))
  }

  function Rendered(r: Regex): string {
    match r
    case End => ""
    case Literal(c, rest) => [c] + Rendered(rest)
    case Segment(rest) => "[^/]+" + Rendered(rest)
  }

  /** Compiling loses nothing: the expression spells the text. */
  lemma {:induction false} CompileRenders(text: string)
    ensures Rendered(Compile(text)) == text
  {
    if text != "" {
      if "[^/]+" <= text {
        CompileRenders(text[5..]);
        assert text == text[..5] + text[5..];
      } else {
        CompileRenders(text[1..]);
        assert text == [text[0]] + text[1..];
      }
    }
  }

  /** Anchored matching, character by character. */
  predicate Matches(r: Regex, s: string) {
    match r
    case End => s == ""
    case Literal(c, rest) => s != "" && s[0] == c && Matches(rest, s[1..])
    case Segment(rest) => s != "" && s[0] != '/' && (Matches(rest, s[1..]) || Matches(r, s[1..]))
  }

  // ---------------------------------------------------------------- segments

  /** The part before the first slash. */
  function Head(s: string): (h: string)
    ensures h <= s && '/' !in h
  {
    if s == "" || s[0] == '/' then "" else [s[0]] + Head(s[1..])
  }

  /** The rest, from the first slash on. */
  function Tail(s: string): (t: string)
    ensures s == Head(s) + t && (t != "" ==> t[0] == '/')
  {
    if s == "" || s[0] == '/' then s else Tail(s[1..])
  }

  /** A path split at its slashes. */
  function Split(s: string): (parts: seq<string>)
    ensures |parts| > 0
    decreases |s|
  {
    if Tail(s) == "" then [Head(s)] else [Head(s)] + Split(Tail(s)[1..])
  }

  function Join(parts: seq<string>): string {
    if |parts| == 0 then "" else if |parts| == 1 then parts[0] else parts[0] + "/" + Join(parts[1..])
  }

  function FirstSegment(r: Regex): Regex {
    match r
    case End => End
    case Literal(c, rest) => if c == '/' then End else Literal(c, FirstSegment(rest))
    case Segment(rest) => Segment(FirstSegment(rest))
  }

  /** Beyond the first segment, from its slash on. */
  function Beyond(r: Regex): (b: Regex)
    ensures b == End || (b.Literal? && b.c == '/')
    ensures b == r || b < r
  {
    match r
    case End => End
    case Literal(c, rest) => if c == '/' then r else Beyond(rest)
    case Segment(rest) => Beyond(rest)
  }

  /** A pattern split at its slashes. */
  function Segments(r: Regex): (segments: seq<Regex>)
    ensures |segments| > 0
    decreases r
  {
    var b := Beyond(r);
    if b == End then [FirstSegment(r)] else [FirstSegment(r)] + Segments(b.rest)
  }

  predicate IsText(r: Regex) {
    r.End? || (r.Literal? && IsText(r.rest))
  }

  /** The literal characters before the first wildcard. */
  function Text(r: Regex): string {
    if r.Literal? then [r.c] + Text(r.rest) else ""
  }

  /** What stands after the first wildcard. */
  function AfterWildcard(r: Regex): (rest: Regex)
    requires !IsText(r)
    ensures rest < r
  {
    if r.Literal? then AfterWildcard(r.rest) else r.rest
  }

  /** A literal segment allows only itself. Any other segment allows its leading text, then one
      or more characters, then what the rest of it allows. */
  predicate Fits(segment: Regex, part: string)
    decreases segment
  {
    if IsText(segment) then part == Text(segment)
    else
      var t := Text(segment);
      t <= part && exists k :: |t| < k <= |part| && Fits(AfterWildcard(segment), part[k..])
  }

  /** Equally many segments, and each of them fits. */
  predicate MatchesSegments(segments: seq<Regex>, parts: seq<string>) {
    |segments| == |parts| && forall i :: 0 <= i < |segments| ==> Fits(segments[i], parts[i])
  }

  lemma JoinsOneMore(part: string, parts: seq<string>)
    requires |parts| > 0
    ensures Join([part] + parts) == part + "/" + Join(parts)
  {
    assert ([part] + parts)[1..] == parts;
  }

  predicate SlashFree(parts: seq<string>) {
    forall i :: 0 <= i < |parts| ==> '/' !in parts[i]
  }

  /** Splitting loses nothing: the parts are free of slashes and joining them gives the path. */
  lemma {:induction false} SplitJoins(s: string)
    ensures Join(Split(s)) == s && SlashFree(Split(s))
    decreases |s|
  {
    if Tail(s) != "" {
      SplitJoins(Tail(s)[1..]);
      JoinsOneMore(Head(s), Split(Tail(s)[1..]));
      assert "/" + Tail(s)[1..] == Tail(s);
    }
  }

  lemma {:induction false} TextMatches(r: Regex, part: string)
    requires IsText(r)
    ensures Matches(r, part) <==> part == Text(r)
  {
    if r.Literal? && part != "" {
      TextMatches(r.rest, part[1..]);
      assert part == [part[0]] + part[1..];
    }
  }

  predicate Takes(rest: Regex, s: string, k: nat) {
    1 <= k <= |s| && '/' !in s[..k] && Matches(rest, s[k..])
  }

  lemma TakesOneMore(rest: Regex, s: string, k: nat)
    requires s != "" && s[0] != '/' && k > 0
    ensures Takes(rest, s, k + 1) <==> Takes(rest, s[1..], k)
  {
    if k < |s| {
      assert s[..k + 1] == [s[0]] + s[1..][..k];
      assert s[1..][k..] == s[k + 1..];
    }
  }

  lemma {:induction false} WildcardTakesSome(rest: Regex, s: string)
    ensures Matches(Segment(rest), s) <==> exists k: nat :: Takes(rest, s, k)
  {
    if s == "" || s[0] == '/' {
      assert forall k: nat :: 1 <= k <= |s| ==> s[..k][0] == s[0];
    } else {
      assert Takes(rest, s, 1) <==> Matches(rest, s[1..]);
      WildcardTakesSome(rest, s[1..]);
      if k: nat :| Takes(rest, s, k) && k > 1 {
        TakesOneMore(rest, s, k - 1);
      }
      if k: nat :| Takes(rest, s[1..], k) {
        TakesOneMore(rest, s, k);
      }
    }
  }

  /** `[^/]+` takes one or more characters other than the slash. */
  lemma WildcardTakes(rest: Regex, s: string)
    ensures Matches(Segment(rest), s) <==> exists k :: 1 <= k <= |s| && '/' !in s[..k] && Matches(rest, s[k..])
  {
    WildcardTakesSome(rest, s);
    if k: nat :| Takes(rest, s, k) {
      assert 1 <= k <= |s| && '/' !in s[..k] && Matches(rest, s[k..]);
    }
    if k :| 1 <= k <= |s| && '/' !in s[..k] && Matches(rest, s[k..]) {
      assert Takes(rest, s, k);
    }
  }

  // ---------------------------------------------------------------- pattern texts

  /** A pattern text that starts with the wildcard matches one or more characters other than the
      slash, and then what the rest of the text matches. */
  lemma CompileWildcard(t: string, s: string)
    ensures Matches(Compile("[^/]+" + t), s) <==>
      exists k :: 1 <= k <= |s| && '/' !in s[..k] && Matches(Compile(t), s[k..])
  {
    assert ("[^/]+" + t)[5..] == t;
    WildcardTakes(Compile(t), s);
  }

  /** Any other pattern text matches its first character and then what the rest of it matches, and
      the empty one matches nothing more. */
  lemma CompileLiteral(text: string, s: string)
    requires !("[^/]+" <= text)
    ensures Matches(Compile(text), s) <==>
      if text == "" then s == "" else s != "" && s[0] == text[0] && Matches(Compile(text[1..]), s[1..])
  {
  }

  /** Text without brackets stands for itself. */
  lemma {:induction false} CompilePrefix(a: string, rest: string, s: string)
    requires '[' !in a
    ensures Matches(Compile(a + rest), s) <==> a <= s && Matches(Compile(rest), s[|a|..])
  {
    if a == "" {
      assert a + rest == rest && s[0..] == s;
    } else {
      assert (a + rest)[0] == a[0] && (a + rest)[1..] == a[1..] + rest;
      CompileLiteral(a + rest, s);
      if s != "" && s[0] == a[0] {
        CompilePrefix(a[1..], rest, s[1..]);
        assert a <= s <==> a[1..] <= s[1..];
        assert a <= s ==> s[1..][|a[1..]|..] == s[|a|..];
      }
    }
  }

  /** The language of a pattern text without wildcards. */
  lemma NoWildcard(text: string, s: string)
    requires '[' !in text
    ensures Matches(Compile(text), s) <==> s == text
  {
    assert text + "" == text;
    CompilePrefix(text, "", s);
    CompileLiteral("", if text <= s then s[|text|..] else "");
  }

  lemma WildcardFilled(a: string, b: string, id: string)
    requires '[' !in a && '[' !in b && id != "" && '/' !in id
    ensures Matches(Compile(a + "[^/]+" + b), a + id + b)
  {
    var rest := id + b;
    assert a + "[^/]+" + b == a + ("[^/]+" + b) && a + id + b == a + rest;
    assert (a + rest)[|a|..] == rest;
    CompilePrefix(a, "[^/]+" + b, a + rest);
    CompileWildcard(b, rest);
    assert rest[..|id|] == id && rest[|id|..] == b;
    NoWildcard(b, b);
  }

  lemma FilledFirst(b: string, s: string) returns (id: string)
    requires '[' !in b && Matches(Compile("[^/]+" + b), s)
    ensures id != "" && '/' !in id && s == id + b
  {
    CompileWildcard(b, s);
    var k :| 1 <= k <= |s| && '/' !in s[..k] && Matches(Compile(b), s[k..]);
    NoWildcard(b, s[k..]);
    id := s[..k];
  }

  lemma FilledOnly(a: string, b: string, s: string) returns (id: string)
    requires '[' !in a && '[' !in b && Matches(Compile(a + "[^/]+" + b), s)
    ensures id != "" && '/' !in id && s == a + id + b
  {
    assert a + "[^/]+" + b == a + ("[^/]+" + b);
    CompilePrefix(a, "[^/]+" + b, s);
    id := FilledFirst(b, s[|a|..]);
    assert a + (id + b) == a + id + b;
  }

  /** The language of a pattern text with one wildcard. */
  lemma OneWildcard(a: string, b: string, s: string)
    requires '[' !in a && '[' !in b
    ensures Matches(Compile(a + "[^/]+" + b), s) <==> exists id :: id != "" && '/' !in id && s == a + id + b
  {
    if Matches(Compile(a + "[^/]+" + b), s) {
      var id := FilledOnly(a, b, s);
    }
    if id :| id != "" && '/' !in id && s == a + id + b {
      WildcardFilled(a, b, id);
    }
  }

  /** A wildcard segment allows every part that is not empty. */
  lemma WildcardFits(part: string)
    ensures Fits(Segment(End), part) <==> part != ""
  {
    assert part != "" ==> part[|part|..] == "";
    assert part != "" ==> Fits(End, part[|part|..]);
  }

  lemma FitsLiteral(c: char, rest: Regex, part: string)
    requires !IsText(rest)
    ensures Fits(Literal(c, rest), part) <==> part != "" && part[0] == c && Fits(rest, part[1..])
  {
    var segment, t := Literal(c, rest), Text(rest);
    assert AfterWildcard(segment) == AfterWildcard(rest);
    if part != "" && part[0] == c {
      assert t <= part[1..] <==> [c] + t <= part;
      assert forall k :: 1 <= k <= |part| ==> part[1..][k - 1..] == part[k..];
      if k :| |t| < k <= |part[1..]| && Fits(AfterWildcard(rest), part[1..][k..]) {
        assert part[1..][k..] == part[k + 1..];
      }
    }
  }

  lemma FitsWildcard(rest: Regex, part: string)
    requires '/' !in part
    requires forall k :: 0 <= k <= |part| ==> (Fits(rest, part[k..]) <==> Matches(rest, part[k..]))
    ensures Fits(Segment(rest), part) <==> Matches(Segment(rest), part)
  {
    WildcardTakesSome(rest, part);
    if k: nat :| Takes(rest, part, k) {
      assert Fits(rest, part[k..]);
    }
    if k :| 0 < k <= |part| && Fits(rest, part[k..]) {
      assert Takes(rest, part, k);
    }
  }

  lemma {:induction false} FitsMatches(segment: Regex, part: string)
    requires '/' !in part
    ensures Fits(segment, part) <==> Matches(segment, part)
    decreases segment
  {
    if IsText(segment) {
      TextMatches(segment, part);
    } else if segment.Literal? {
      FitsLiteral(segment.c, segment.rest, part);
      if part != "" {
        FitsMatches(segment.rest, part[1..]);
      }
    } else {
      forall k | 0 <= k <= |part| ensures Fits(segment.rest, part[k..]) <==> Matches(segment.rest, part[k..]) {
        FitsMatches(segment.rest, part[k..]);
      }
      FitsWildcard(segment.rest, part);
    }
  }

  lemma {:induction false} MatchesSplits(r: Regex, s: string)
    ensures Matches(r, s) <==>
      && Matches(FirstSegment(r), Head(s))
      && (Beyond(r) == End <==> Tail(s) == "")
      && (Beyond(r) != End ==> Matches(Beyond(r), Tail(s)))
    decreases r, |s|
  {
    if s == "" || s[0] == '/' || r == End {
      assert Head(s) == "" || r == End;
    } else if r.Literal? {
      if r.c != '/' {
        MatchesSplits(r.rest, s[1..]);
        assert Head(s)[1..] == Head(s[1..]) && Tail(s) == Tail(s[1..]);
      }
    } else {
      MatchesSplits(r.rest, s[1..]);
      MatchesSplits(r, s[1..]);
      assert Head(s)[1..] == Head(s[1..]) && Tail(s) == Tail(s[1..]);
    }
  }

  /** Matching characters against an anchored pattern is matching segment by segment. */
  lemma {:induction false} SegmentsAgree(r: Regex, s: string)
    ensures Matches(r, s) <==> MatchesSegments(Segments(r), Split(s))
    decreases |s|
  {
    var segments, parts := Segments(r), Split(s);
    MatchesSplits(r, s);
    FitsMatches(FirstSegment(r), Head(s));
    assert Matches(r, s) ==> (Beyond(r) == End <==> Tail(s) == "");
    assert MatchesSegments(segments, parts) ==> |segments| == |parts|;
    if Beyond(r) == End && Tail(s) == "" {
      assert segments[0] == FirstSegment(r) && parts[0] == Head(s);
    } else if Beyond(r) != End && Tail(s) != "" {
      SegmentsAgree(Beyond(r).rest, Tail(s)[1..]);
      MatchesSegmentsUnfolds(FirstSegment(r), Segments(Beyond(r).rest), Head(s), Split(Tail(s)[1..]));
    }
  }

  lemma MatchesSegmentsUnfolds(segment: Regex, segments: seq<Regex>, part: string, parts: seq<string>)
    ensures MatchesSegments([segment] + segments, [part] + parts) <==>
      Fits(segment, part) && MatchesSegments(segments, parts)
  {
    if MatchesSegments([segment] + segments, [part] + parts) {
      forall i | 0 <= i < |segments| ensures Fits(segments[i], parts[i]) {
        assert Fits(([segment] + segments)[i + 1], ([part] + parts)[i + 1]);
      }
      assert Fits(([segment] + segments)[0], ([part] + parts)[0]);
    }
  }

  // ---------------------------------------------------------------- normal form of a path

  /** Unicode white space. */
  predicate IsSpace(c: char) {
    || '\t' <= c <= '\r' || c == ' ' || c == '\U{85}' || c == '\U{A0}' || c == '\U{1680}'
    || '\U{2000}' <= c <= '\U{200A}' || c == '\U{2028}' || c == '\U{2029}' || c == '\U{202F}'
    || c == '\U{205F}' || c == '\U{3000}'
  }

  function TrimLeft(s: string): string {
    if s != "" && IsSpace(s[0]) then TrimLeft(s[1..]) else s
  }

  function TrimRight(s: string, trims: char -> bool): string {
    if s != "" && trims(s[|s| - 1]) then TrimRight(s[..|s| - 1], trims) else s
  }

  function TrimSpace(s: string): string {
    TrimRight(TrimLeft(s), IsSpace)
  }

  /** The code points of Unicode white space. */
  lemma SpacesAre(c: char)
    ensures IsSpace(c) <==> c as int in {0x9, 0xA, 0xB, 0xC, 0xD, 0x20, 0x85, 0xA0, 0x1680,
      0x2000, 0x2001, 0x2002, 0x2003, 0x2004, 0x2005, 0x2006, 0x2007, 0x2008, 0x2009, 0x200A,
      0x2028, 0x2029, 0x202F, 0x205F, 0x3000}
  {
  }

  predicate IsSlash(c: char) {
    c == '/'
  }

  /** White space goes at both ends, and then trailing slashes. */
  function Normalised(path: string): string {
    TrimRight(TrimSpace(path), IsSlash)
  }

  predicate All(s: string, p: char -> bool) {
    forall i :: 0 <= i < |s| ==> p(s[i])
  }

  lemma {:induction false} TrimLeftCuts(s: string) returns (cut: string)
    ensures s == cut + TrimLeft(s) && All(cut, IsSpace)
    ensures TrimLeft(s) != "" ==> !IsSpace(TrimLeft(s)[0])
  {
    cut := "";
    if s != "" && IsSpace(s[0]) {
      cut := TrimLeftCuts(s[1..]);
      cut := [s[0]] + cut;
    }
  }

  lemma {:induction false} TrimRightCuts(s: string, trims: char -> bool) returns (cut: string)
    ensures s == TrimRight(s, trims) + cut && All(cut, trims)
    ensures var r := TrimRight(s, trims); r != "" ==> !trims(r[|r| - 1])
  {
    cut := "";
    if s != "" && trims(s[|s| - 1]) {
      cut := TrimRightCuts(s[..|s| - 1], trims);
      cut := cut + [s[|s| - 1]];
    }
  }

  /** What the normal form leaves out: white space at both ends, and the slashes that stand
      before the trailing white space. */
  lemma NormalisedCuts(path: string) returns (lead: string, slashes: string, trail: string)
    ensures path == lead + (Normalised(path) + slashes) + trail
    ensures All(lead, IsSpace) && All(trail, IsSpace) && forall i :: 0 <= i < |slashes| ==> slashes[i] == '/'
    ensures var n := Normalised(path); n != "" ==> n[|n| - 1] != '/'
    ensures var inner := Normalised(path) + slashes;
      inner != "" ==> !IsSpace(inner[0]) && !IsSpace(inner[|inner| - 1])
  {
    lead := TrimLeftCuts(path);
    trail := TrimRightCuts(TrimLeft(path), IsSpace);
    slashes := TrimRightCuts(TrimSpace(path), IsSlash);
    Regrouped(path, lead, TrimSpace(path), trail);
    assert TrimSpace(path) == Normalised(path) + slashes;
    FirstKept(TrimLeft(path), TrimSpace(path), trail);
  }

  lemma Regrouped(path: string, lead: string, inner: string, trail: string)
    requires path == lead + (inner + trail)
    ensures path == lead + inner + trail
  {
  }

  lemma FirstKept(left: string, inner: string, trail: string)
    requires left == inner + trail
    ensures inner != "" ==> left != "" && inner[0] == left[0]
  {
  }

  /** A pattern allows a path, segment by segment. */
  predicate Allows(text: string, path: string) {
    MatchesSegments(Segments(Compile(text)), Split(path))
  }

  /** The paths that a table allows. */
  predicate AcceptedBy(patterns: seq<string>, path: string) {
    var normal := Normalised(path);
    normal != "" && exists text :: text in patterns && Allows(text, normal)
  }

  lemma AllowsByCharacters(text: string, path: string)
    ensures Allows(text, path) <==> Matches(Compile(text), path)
  {
    SegmentsAgree(Compile(text), path);
  }

  /** The same paths, character by character. */
  lemma AcceptedByCharacters(patterns: seq<string>, path: string)
    ensures AcceptedBy(patterns, path) <==>
      Normalised(path) != "" && exists text :: text in patterns && Matches(Compile(text), Normalised(path))
  {
    var normal := Normalised(path);
    forall text ensures Allows(text, normal) <==> Matches(Compile(text), normal) {
      AllowsByCharacters(text, normal);
    }
  }

  function Slashes(n: nat): string {
    if n == 0 then "" else Slashes(n - 1) + "/"
  }

  predicate EndsInSpace(path: string) {
    path != "" && IsSpace(path[|path| - 1])
  }

  lemma {:induction false} TrimLeftAppend(s: string, t: string)
    requires t != "" ==> !IsSpace(t[0])
    ensures TrimLeft(s + t) == TrimLeft(s) + t
  {
    if s == "" {
      assert s + t == t;
    } else if IsSpace(s[0]) {
      assert (s + t)[1..] == s[1..] + t;
      TrimLeftAppend(s[1..], t);
    }
  }

  lemma {:induction false} TrimLeftLast(s: string)
    ensures TrimLeft(s) == "" || (|TrimLeft(s)| <= |s| && TrimLeft(s) == s[|s| - |TrimLeft(s)|..])
  {
    if s != "" && IsSpace(s[0]) {
      TrimLeftLast(s[1..]);
    }
  }

  lemma {:induction false} SlashesTrimmed(s: string, n: nat)
    ensures TrimRight(s + Slashes(n), IsSlash) == TrimRight(s, IsSlash)
  {
    if n == 0 {
      assert s + Slashes(n) == s;
    } else {
      assert (s + Slashes(n))[..|s + Slashes(n)| - 1] == s + Slashes(n - 1);
      SlashesTrimmed(s, n - 1);
    }
  }

  lemma {:induction false} TrimRightShrinks(s: string, trims: char -> bool)
    ensures |TrimRight(s, trims)| <= |s|
    ensures s != "" && trims(s[|s| - 1]) ==> |TrimRight(s, trims)| < |s|
  {
    if s != "" && trims(s[|s| - 1]) {
      TrimRightShrinks(s[..|s| - 1], trims);
    }
  }

  lemma {:induction false} SlashesAreSlashes(n: nat)
    ensures |Slashes(n)| == n && forall i :: 0 <= i < n ==> Slashes(n)[i] == '/'
  {
    if n > 0 {
      SlashesAreSlashes(n - 1);
    }
  }

  /** Appended slashes keep the white space before them from being trimmed. */
  lemma WithSlashes(path: string, n: nat)
    requires n > 0
    ensures Normalised(path + Slashes(n)) == TrimRight(TrimLeft(path), IsSlash)
  {
    var s := Slashes(n);
    SlashesAreSlashes(n);
    TrimLeftAppend(path, s);
    var u := TrimLeft(path) + s;
    assert u[|u| - 1] == s[n - 1] == '/';
    SlashesTrimmed(TrimLeft(path), n);
  }

  /** Appending slashes leaves a path's normal form alone exactly when the path does not end in
      white space, or is nothing but white space. */
  lemma SlashesIff(path: string, n: nat)
    requires n > 0
    ensures Normalised(path + Slashes(n)) == Normalised(path) <==> !EndsInSpace(path) || TrimLeft(path) == ""
  {
    WithSlashes(path, n);
    TrimLeftLast(path);
    var t := TrimLeft(path);
    if t != "" && EndsInSpace(path) {
      assert t[|t| - 1] == path[|path| - 1];
      var u := TrimRight(t, IsSpace);
      TrimRightShrinks(t, IsSpace);
      TrimRightShrinks(u, IsSlash);
      assert TrimRight(t, IsSlash) == t;
    }
  }

  /** For a path without trailing white space, appending slashes does not change the verdict. */
  lemma SlashesKeepVerdict(patterns: seq<string>, path: string, n: nat)
    requires !EndsInSpace(path)
    ensures AcceptedBy(patterns, path + Slashes(n)) <==> AcceptedBy(patterns, path)
  {
    if n == 0 {
      assert path + Slashes(n) == path;
    } else {
      SlashesIff(path, n);
    }
  }
}
