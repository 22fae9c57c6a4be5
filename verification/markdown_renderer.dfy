/**
 * The fenced-code segmenter of the markdown renderer.
 *
 * An assistant message is split with
 *     text.split(/```([\w-]*)?(?:\n|\r\n|\r)([\s\S]*?)```/g)
 * which, following `RegExp.prototype[@@split]` (section 22.2.6.14 of
 * ECMA-262, 2024 edition), tries a sticky match at every position q from
 * left to right, moves q on by one code unit when there is none, and after a
 * match at q emits the prose since the last match, then the two captures,
 * and resumes after the match. The parts are then classified by their
 * index mod 3: prose, language, code body.
 *
 * This is the regular expression as written, not CommonMark: no tilde
 * fences, no longer fences, no indentation rules, and the closing fence
 * may sit anywhere, even in the middle of a line.
 */
module MarkdownRenderer {
  import opened Wrappers
  import opened Js

  const Fence: string := "```"

  /** Three backticks start at index k. */
  predicate FenceAt(s: string, k: int) {
    0 <= k && k + 3 <= |s| && s[k] == '`' && s[k + 1] == '`' && s[k + 2] == '`'
  }

  /** Whether "```" occurs anywhere in t. */
  predicate ContainsFence(t: string) {
    exists k :: 0 <= k < |t| && FenceAt(t, k)
  }

  /** A character of the class `[\w-]`. */
  predicate IsLangChar(c: char) {
    IsWordChar(c) || c == '-'
  }

  /** The first "```" at or after `from`: what the lazy `([\s\S]*?)```` settles on. */
  function FindFence(s: string, from: nat): (r: Option<nat>)
    requires from <= |s|
    decreases |s| - from
    ensures r.Some? ==> from <= r.value && FenceAt(s, r.value)
    ensures r.Some? ==> forall k :: from <= k < r.value ==> !FenceAt(s, k)
    ensures r.None? ==> forall k :: from <= k ==> !FenceAt(s, k)
  {
    if from + 3 > |s| then None
    else if FenceAt(s, from) then Some(from)
    else FindFence(s, from + 1)
  }

  /** One of the three line breaks `(?:\n|\r\n|\r)` accepts, spelled out character by character. */
  predicate IsLineBreak(nl: string) {
    || (|nl| == 1 && (nl[0] == '\n' || nl[0] == '\r'))
    || (|nl| == 2 && nl[0] == '\r' && nl[1] == '\n')
  }

  /** `IsLineBreak` holds of exactly "\n", "\r\n" and "\r". */
  lemma LineBreaks(nl: string)
    ensures IsLineBreak(nl) <==> nl == "\n" || nl == "\r\n" || nl == "\r"
  {
    if |nl| == 1 {
      assert nl == [nl[0]];
    } else if |nl| == 2 {
      assert nl == [nl[0], nl[1]];
    }
  }

  /**
   * The line break `(?:\n|\r\n|\r)` matches at j. A "\r\n" is always taken
   * whole: the alternative that stops after the "\r" leaves a body that
   * starts with "\n", which has no closing fence unless the longer one has.
   */
  function LineBreakAt(s: string, j: nat): (r: Option<string>)
    ensures r.Some? ==> IsLineBreak(r.value)
    ensures r.Some? ==> j + |r.value| <= |s| && s[j..j + |r.value|] == r.value
    ensures r.None? <==> j >= |s| || (s[j] != '\n' && s[j] != '\r')
    ensures j < |s| && s[j] == '\n' ==> r == Some("\n")
    ensures j + 1 < |s| && s[j] == '\r' && s[j + 1] == '\n' ==> r == Some("\r\n")
    ensures j < |s| && s[j] == '\r' && (j + 1 == |s| || s[j + 1] != '\n') ==> r == Some("\r")
  {
    if j < |s| && s[j] == '\n' then Some("\n")
    else if j + 1 < |s| && s[j] == '\r' && s[j + 1] == '\n' then Some("\r\n")
    else if j < |s| && s[j] == '\r' then Some("\r")
    else None
  }

  /** One match of the fence regular expression: the two captures, the line break, and where it ends. */
  datatype FenceMatch = FenceMatch(lang: Option<string>, lineBreak: string, body: string, end: nat)

  /**
   * The code block as the source text holds it: the fence, the language
   * capture (nothing when it is undefined), the line break, the body and
   * the closing fence.
   */
  function Wrap(lang: Option<string>, lineBreak: string, body: string): string {
    Fence + (if lang.Some? then lang.value else "") + lineBreak + body + Fence
  }

  /** A language capture: undefined, or a non-empty run of `[A-Za-z0-9_-]`. */
  predicate IsLanguageCapture(lang: Option<string>) {
    lang.Some? ==> lang.value != "" && forall i :: 0 <= i < |lang.value| ==> IsLangChar(lang.value[i])
  }

  /**
   * What a code block's parts always satisfy: a language capture is
   * undefined or a non-empty run of `[A-Za-z0-9_-]`; the line break is one
   * of the three the expression accepts, and a lone "\r" is never followed
   * by "\n" (a "\r\n" is taken whole); the body holds no "```"; and it
   * does not end with a backtick, which would have started an earlier
   * closing fence (see `ClosesAtFirstFence`).
   */
  predicate ValidBlock(lang: Option<string>, lineBreak: string, body: string) {
    && IsLanguageCapture(lang)
    && IsLineBreak(lineBreak)
    && (|lineBreak| == 1 && lineBreak[0] == '\r' ==> body == [] || body[0] != '\n')
    && !ContainsFence(body)
    && (body == [] || body[|body| - 1] != '`')
  }

  /**
   * The last two conjuncts of `ValidBlock` say exactly that the closing
   * fence is the first one: no "```" starts in the body followed by the
   * first two backticks of that fence.
   */
  lemma ClosesAtFirstFence(body: string)
    ensures !ContainsFence(body + Fence[..2]) <==> !ContainsFence(body) && (body == [] || body[|body| - 1] != '`')
  {
    var t := body + Fence[..2];
    if ContainsFence(body) {
      var k :| 0 <= k < |body| && FenceAt(body, k);
      assert FenceAt(t, k);
    } else if body != [] && body[|body| - 1] == '`' {
      assert FenceAt(t, |body| - 1);
    } else if ContainsFence(t) {
      var k :| 0 <= k < |t| && FenceAt(t, k);
      if k + 3 <= |body| {
        assert FenceAt(body, k);
      }
    }
  }

  /** A stretch with no fence starting inside it holds no "```". */
  lemma FenceFreeSlice(s: string, from: nat, c: nat)
    requires from <= c <= |s|
    requires forall k :: from <= k < c ==> !FenceAt(s, k)
    ensures !ContainsFence(s[from..c])
  {
    forall k | 0 <= k < |s[from..c]| && FenceAt(s[from..c], k) ensures false {
      assert FenceAt(s, from + k);
    }
  }

  /** When c is the first fence at or after `from`, the text between them does not end with a backtick. */
  lemma FirstFence(s: string, from: nat, c: nat)
    requires from <= c && FenceAt(s, c)
    requires forall k :: from <= k < c ==> !FenceAt(s, k)
    ensures from == c || s[c - 1] != '`'
  {
    if from < c {
      assert !FenceAt(s, c - 1);
    }
  }

  /** A fence at k spells "```". */
  lemma FenceText(s: string, k: nat)
    requires FenceAt(s, k)
    ensures s[k..k + 3] == Fence
  {
  }

  /** A slice cut at one point. */
  lemma SliceJoin<T>(s: seq<T>, a: nat, b: nat, c: nat)
    requires a <= b <= c <= |s|
    ensures s[a..c] == s[a..b] + s[b..c]
  {
  }

  /** A slice cut at two points. */
  lemma Slice3(s: string, a: nat, b: nat, c: nat, d: nat)
    requires a <= b <= c <= d <= |s|
    ensures s[a..d] == s[a..b] + s[b..c] + s[c..d]
  {
    assert s[a..d] == s[a..b] + s[b..d];
    assert s[b..d] == s[b..c] + s[c..d];
  }

  /** The text of a match, from the opening fence to the end of the closing one, cut at its four joints. */
  lemma MatchText(s: string, q: nat, j: nat, b: nat, c: nat)
    requires q + 3 <= j <= b <= c && c + 3 <= |s|
    requires FenceAt(s, q) && FenceAt(s, c)
    ensures s[q..c + 3] == Fence + s[q + 3..j] + s[j..b] + s[b..c] + Fence
  {
    FenceText(s, q);
    FenceText(s, c);
    Slice3(s, q, q + 3, j, c + 3);
    Slice3(s, j, b, c, c + 3);
  }

  /** The same text is the block re-wrapped from its language capture, line break and body. */
  lemma MatchWrap(s: string, q: nat, j: nat, b: nat, c: nat, lang: Option<string>, nl: string)
    requires q + 3 <= j <= b <= c && c + 3 <= |s|
    requires FenceAt(s, q) && FenceAt(s, c)
    requires (if lang.Some? then lang.value else "") == s[q + 3..j] && s[j..b] == nl
    ensures s[q..c + 3] == Wrap(lang, nl, s[b..c])
  {
    MatchText(s, q, j, b, c);
  }

  /** The language capture over s[i..j], a run of `[\w-]`: undefined when the run is empty. */
  function LanguageCapture(s: string, i: nat, j: nat): (r: Option<string>)
    requires i <= j <= |s| && forall k :: i <= k < j ==> IsLangChar(s[k])
    ensures IsLanguageCapture(r)
    ensures (if r.Some? then r.value else "") == s[i..j]
  {
    if j == i then None else Some(s[i..j])
  }

  /**
   * The sticky match at q. `[\w-]*` is greedy and the character after its
   * longest run is not in the class, so backing off a shorter run cannot
   * meet a line break; an empty run leaves the optional group unmatched
   * (an iteration of `?` that matches nothing is rejected), so the capture
   * is undefined.
   */
  function MatchAt(s: string, q: nat): (r: Option<FenceMatch>)
    requires q <= |s|
    ensures r.Some? ==> q < r.value.end <= |s|
    ensures r.Some? ==> s[q..r.value.end] == Wrap(r.value.lang, r.value.lineBreak, r.value.body)
    ensures r.Some? ==> ValidBlock(r.value.lang, r.value.lineBreak, r.value.body)
  {
    if !FenceAt(s, q) then None
    else
      var j := WordRunEnd(s, q + 3, true);
      match LineBreakAt(s, j)
      case None => None
      case Some(nl) =>
        match FindFence(s, j + |nl|)
        case None => None
        case Some(c) =>
          var lang := LanguageCapture(s, q + 3, j);
          var m := FenceMatch(lang, nl, s[j + |nl|..c], c + 3);
          MatchFacts(s, q, j, nl, c, lang, m);
          Some(m)
  }

  /**
   * Completeness: whenever the expression can match at q (a fence, a run
   * of `[\w-]`, a line break present in the text, and a later fence),
   * MatchAt finds a match there.
   */
  lemma MatchAtComplete(s: string, q: nat, j: nat, nl: string, c: nat)
    requires FenceAt(s, q) && q + 3 <= j <= |s| && forall k :: q + 3 <= k < j ==> IsLangChar(s[k])
    requires IsLineBreak(nl) && j + |nl| <= |s| && s[j..j + |nl|] == nl
    requires FenceAt(s, c) && j + |nl| <= c
    ensures MatchAt(s, q).Some?
  {
    assert s[j] == s[j..j + |nl|][0];
    var w := WordRunEnd(s, q + 3, true);
    assert w == j;
    var lb := LineBreakAt(s, j);
    assert lb.Some? && j + |lb.value| <= c by {
      if |lb.value| == 2 {
        assert s[j + 1] == '\n';
      }
    }
    assert FindFence(s, j + |lb.value|).Some?;
  }

  /** The pieces MatchAt finds make up the matched text and a well-formed block. */
  lemma MatchFacts(s: string, q: nat, j: nat, nl: string, c: nat, lang: Option<string>, m: FenceMatch)
    requires q + 3 <= j && j + |nl| <= |s|
    requires FenceAt(s, q) && FindFence(s, j + |nl|) == Some(c)
    requires IsLineBreak(nl)
    requires s[j..j + |nl|] == nl
    requires |nl| == 1 && nl[0] == '\r' ==> j + 1 == |s| || s[j + 1] != '\n'
    requires IsLanguageCapture(lang) && (if lang.Some? then lang.value else "") == s[q + 3..j]
    requires m == FenceMatch(lang, nl, s[j + |nl|..c], c + 3)
    ensures q < m.end <= |s|
    ensures s[q..m.end] == Wrap(m.lang, m.lineBreak, m.body)
    ensures ValidBlock(m.lang, m.lineBreak, m.body)
  {
    MatchWrap(s, q, j, j + |nl|, c, lang, nl);
    MatchedBlockValid(s, j, nl, c, lang);
  }

  /** The block between the line break at j and the first fence c after it is well formed. */
  lemma MatchedBlockValid(s: string, j: nat, nl: string, c: nat, lang: Option<string>)
    requires j + |nl| <= c && FenceAt(s, c)
    requires forall k :: j + |nl| <= k < c ==> !FenceAt(s, k)
    requires IsLineBreak(nl)
    requires |nl| == 1 && nl[0] == '\r' ==> j + 1 == |s| || s[j + 1] != '\n'
    requires IsLanguageCapture(lang)
    ensures ValidBlock(lang, nl, s[j + |nl|..c])
  {
    FenceFreeSlice(s, j + |nl|, c);
    FirstFence(s, j + |nl|, c);
    LoneReturnBody(s, j, nl, c);
  }

  /** After a lone "\r" the body does not start with "\n". */
  lemma LoneReturnBody(s: string, j: nat, nl: string, c: nat)
    requires j + |nl| <= c <= |s|
    requires |nl| == 1 && nl[0] == '\r' ==> j + 1 == |s| || s[j + 1] != '\n'
    ensures |nl| == 1 && nl[0] == '\r' ==> s[j + |nl|..c] == [] || s[j + |nl|..c][0] != '\n'
  {
  }

  /** A piece of the message: prose between fences, or a fenced code block. */
  datatype Segment = Prose(text: string) | Code(lang: Option<string>, lineBreak: string, body: string)

  /** Prose, code, prose, ..., code, prose: never two of a kind in a row, prose at both ends. */
  predicate Alternating(segs: seq<Segment>) {
    |segs| % 2 == 1 && forall i :: 0 <= i < |segs| ==> (segs[i].Prose? <==> i % 2 == 0)
  }

  /** Prose and a block in front of an alternating list keep it alternating, and only they do. */
  lemma AlternatingCons(segs: seq<Segment>)
    requires |segs| >= 2
    ensures Alternating(segs) <==> segs[0].Prose? && segs[1].Code? && Alternating(segs[2..])
  {
    if segs[0].Prose? && segs[1].Code? && Alternating(segs[2..]) {
      forall i | 2 <= i < |segs| ensures segs[i].Prose? <==> i % 2 == 0 {
        assert segs[i] == segs[2..][i - 2];
      }
    }
    if Alternating(segs) {
      forall i | 0 <= i < |segs| - 2 ensures segs[2..][i].Prose? <==> i % 2 == 0 {
        assert segs[2..][i] == segs[i + 2];
      }
    }
  }

  predicate AllBlocksValid(segs: seq<Segment>) {
    forall i :: 0 <= i < |segs| && segs[i].Code? ==> ValidBlock(segs[i].lang, segs[i].lineBreak, segs[i].body)
  }

  /**
   * The @@split loop from p (the end of the last match) with the next
   * attempt at q: on a match, the prose s[p..q] and the block; at the end of
   * the string, the remaining prose.
   */
  function Scan(s: string, p: nat, q: nat): (r: seq<Segment>)
    requires p <= q <= |s|
    decreases |s| - q
    ensures Alternating(r)
    ensures AllBlocksValid(r)
  {
    if q == |s| then [Prose(s[p..])]
    else
      match MatchAt(s, q)
      case None => Scan(s, p, q + 1)
      case Some(m) =>
        var rest := Scan(s, m.end, m.end);
        var r := [Prose(s[p..q]), Code(m.lang, m.lineBreak, m.body)] + rest;
        assert r[2..] == rest;
        AlternatingCons(r);
        r
  }

  /** The message cut into prose and code blocks. */
  function Segments(s: string): seq<Segment> {
    Scan(s, 0, 0)
  }

  /** The source text of a segment. */
  function SegmentText(seg: Segment): string {
    match seg
    case Prose(t) => t
    case Code(lang, nl, body) => Wrap(lang, nl, body)
  }

  /** Concatenation of the segments' source texts. */
  function Unsplit(segs: seq<Segment>): string {
    if segs == [] then "" else SegmentText(segs[0]) + Unsplit(segs[1..])
  }

  lemma {:induction false} UnsplitAppend(a: seq<Segment>, b: seq<Segment>)
    ensures Unsplit(a + b) == Unsplit(a) + Unsplit(b)
  {
    if a == [] {
      assert a + b == b;
    } else {
      assert (a + b)[0] == a[0];
      assert (a + b)[1..] == a[1..] + b;
      UnsplitAppend(a[1..], b);
    }
  }

  lemma HeadText(prose: string, lang: Option<string>, lineBreak: string, body: string)
    ensures Unsplit([Prose(prose), Code(lang, lineBreak, body)]) == prose + Wrap(lang, lineBreak, body)
  {
    var head := [Prose(prose), Code(lang, lineBreak, body)];
    var tail := [Code(lang, lineBreak, body)];
    assert head[1..] == tail;
    assert tail[1..] == [];
    assert Unsplit(tail) == Wrap(lang, lineBreak, body) + Unsplit([]);
  }

  /** One step of the scan: a match at q emits the prose before it and the block. */
  lemma ScanStep(s: string, p: nat, q: nat)
    requires p <= q < |s| && MatchAt(s, q).Some?
    ensures var m := MatchAt(s, q).value;
      Scan(s, p, q) == [Prose(s[p..q]), Code(m.lang, m.lineBreak, m.body)] + Scan(s, m.end, m.end)
  {
  }

  /** One step of the scan: no match at q moves on to q + 1. */
  lemma ScanSkip(s: string, p: nat, q: nat)
    requires p <= q < |s| && MatchAt(s, q).None?
    ensures Scan(s, p, q) == Scan(s, p, q + 1)
  {
  }

  /** The last step of the scan: the rest of the text is one prose stretch. */
  lemma ScanEnd(s: string, p: nat)
    requires p <= |s|
    ensures Scan(s, p, |s|) == [Prose(s[p..])]
  {
  }

  lemma {:induction false} ScanRoundTrip(s: string, p: nat, q: nat)
    requires p <= q <= |s|
    decreases |s| - q
    ensures Unsplit(Scan(s, p, q)) == s[p..]
  {
    if q == |s| {
      ScanEnd(s, p);
      assert Unsplit([Prose(s[p..])]) == s[p..] + Unsplit([]);
    } else if MatchAt(s, q).None? {
      ScanSkip(s, p, q);
      ScanRoundTrip(s, p, q + 1);
    } else {
      var m := MatchAt(s, q).value;
      ScanRoundTrip(s, m.end, m.end);
      RoundTripAtMatch(s, p, q);
    }
  }

  /** A match at q followed by a rest that re-assembles re-assembles from p. */
  lemma RoundTripAtMatch(s: string, p: nat, q: nat)
    requires p <= q < |s| && MatchAt(s, q).Some?
    requires Unsplit(Scan(s, MatchAt(s, q).value.end, MatchAt(s, q).value.end)) == s[MatchAt(s, q).value.end..]
    ensures Unsplit(Scan(s, p, q)) == s[p..]
  {
    var m := MatchAt(s, q).value;
    var head := [Prose(s[p..q]), Code(m.lang, m.lineBreak, m.body)];
    var rest := Scan(s, m.end, m.end);
    ScanStep(s, p, q);
    UnsplitAppend(head, rest);
    HeadText(s[p..q], m.lang, m.lineBreak, m.body);
    Concat3(s, p, q, m.end);
  }

  lemma Concat3(s: string, a: nat, b: nat, c: nat)
    requires a <= b <= c <= |s|
    ensures s[a..] == s[a..b] + s[b..c] + s[c..]
  {
  }

  /**
   * Round trip: the prose parts and each block re-wrapped as "```" + language
   * + the recorded line break + body + "```" give back the message exactly.
   */
  lemma SegmentsRoundTrip(s: string)
    ensures Unsplit(Segments(s)) == s
  {
    ScanRoundTrip(s, 0, 0);
  }

  /** No match of the expression starts at any position in [p, q). */
  ghost predicate NoMatchUpTo(s: string, p: nat, q: nat)
    requires p <= q <= |s|
    decreases q - p
  {
    q == p || (MatchAt(s, q - 1).None? && NoMatchUpTo(s, p, q - 1))
  }

  /** `NoMatchUpTo` says of each position in the range that no match starts there. */
  lemma {:induction false} NoMatchUpToAt(s: string, p: nat, q: nat, k: nat)
    requires p <= k < q <= |s| && NoMatchUpTo(s, p, q)
    decreases q - p
    ensures MatchAt(s, k).None?
  {
    if k < q - 1 {
      NoMatchUpToAt(s, p, q - 1, k);
    }
  }

  /**
   * Walking the segments from position `pos` of s: no match of the
   * expression starts inside any prose stretch.
   */
  ghost predicate NoMatchInProse(s: string, pos: nat, segs: seq<Segment>)
    decreases |segs|
  {
    segs != [] ==>
      && (segs[0].Prose? ==> pos + |segs[0].text| <= |s| && NoMatchUpTo(s, pos, pos + |segs[0].text|))
      && NoMatchInProse(s, pos + |SegmentText(segs[0])|, segs[1..])
  }

  /** `NoMatchInProse` for one more segment, from `pos` to `next`, in front of a list. */
  lemma NoMatchInProseCons(s: string, pos: nat, next: nat, seg: Segment, rest: seq<Segment>)
    requires next == pos + |SegmentText(seg)|
    requires seg.Prose? ==> next <= |s| && NoMatchUpTo(s, pos, next)
    requires NoMatchInProse(s, next, rest)
    ensures NoMatchInProse(s, pos, [seg] + rest)
  {
    ConsParts(seg, rest);
  }

  /** The head and the tail of a list with one element in front. */
  lemma ConsParts<T>(x: T, rest: seq<T>)
    ensures ([x] + rest)[0] == x && ([x] + rest)[1..] == rest
  {
  }

  /** Two elements in front of a list, one at a time. */
  lemma ConsCons<T>(x: T, y: T, rest: seq<T>)
    ensures [x] + ([y] + rest) == [x, y] + rest
  {
  }

  /** `NoMatchInProse` over the prose s[p..q] and a block ending at e in front of the rest. */
  lemma NoMatchInProseStep(s: string, p: nat, q: nat, e: nat, block: Segment, rest: seq<Segment>)
    requires p <= q <= |s| && block.Code? && e == q + |SegmentText(block)|
    requires NoMatchUpTo(s, p, q)
    requires NoMatchInProse(s, e, rest)
    ensures NoMatchInProse(s, p, [Prose(s[p..q]), block] + rest)
  {
    NoMatchInProseCons(s, q, e, block, rest);
    NoMatchInProseCons(s, p, q, Prose(s[p..q]), [block] + rest);
    ConsCons(Prose(s[p..q]), block, rest);
  }

  lemma {:induction false} ScanLeftmost(s: string, p: nat, q: nat)
    requires p <= q <= |s| && NoMatchUpTo(s, p, q)
    decreases |s| - q
    ensures NoMatchInProse(s, p, Scan(s, p, q))
  {
    if q == |s| {
      LeftmostAtEnd(s, p);
    } else if MatchAt(s, q).None? {
      ScanLeftmost(s, p, q + 1);
      LeftmostSkip(s, p, q);
    } else {
      var e := MatchAt(s, q).value.end;
      ScanLeftmost(s, e, e);
      LeftmostAtMatch(s, p, q);
    }
  }

  /** Skipping a position where nothing matches keeps the scan leftmost. */
  lemma LeftmostSkip(s: string, p: nat, q: nat)
    requires p <= q < |s| && MatchAt(s, q).None?
    requires NoMatchInProse(s, p, Scan(s, p, q + 1))
    ensures NoMatchInProse(s, p, Scan(s, p, q))
  {
    ScanSkip(s, p, q);
  }

  /** At the end of the text the last prose stretch is leftmost when no match starts in it. */
  lemma LeftmostAtEnd(s: string, p: nat)
    requires p <= |s| && NoMatchUpTo(s, p, |s|)
    ensures NoMatchInProse(s, p, Scan(s, p, |s|))
  {
    ScanEnd(s, p);
    assert [Prose(s[p..])][1..] == [];
  }

  /** A match at q with no match in [p, q) and a leftmost rest is leftmost from p. */
  lemma LeftmostAtMatch(s: string, p: nat, q: nat)
    requires p <= q < |s| && MatchAt(s, q).Some? && NoMatchUpTo(s, p, q)
    requires var e := MatchAt(s, q).value.end; NoMatchInProse(s, e, Scan(s, e, e))
    ensures NoMatchInProse(s, p, Scan(s, p, q))
  {
    var m := MatchAt(s, q).value;
    var block := Code(m.lang, m.lineBreak, m.body);
    assert m.end == q + |SegmentText(block)| by {
      assert SegmentText(block) == s[q..m.end];
    }
    ScanStep(s, p, q);
    NoMatchInProseStep(s, p, q, m.end, block, Scan(s, m.end, m.end));
  }

  /**
   * Every block the segmenter produces is well formed: the language is
   * absent or a non-empty run of `[A-Za-z0-9_-]`, it is followed by "\n",
   * "\r\n" or "\r", and the body never contains "```". The list starts and
   * ends with prose and alternates, and the split is leftmost: no match
   * starts inside a prose stretch.
   */
  lemma SegmentsWellFormed(s: string)
    ensures Alternating(Segments(s))
    ensures forall i :: 0 <= i < |Segments(s)| && Segments(s)[i].Code? ==>
      ValidBlock(Segments(s)[i].lang, Segments(s)[i].lineBreak, Segments(s)[i].body)
    ensures NoMatchInProse(s, 0, Segments(s))
  {
    ScanLeftmost(s, 0, 0);
  }

  // ---------------------------------------------------------------------
  // The array `split` returns, and what the renderer makes of each part
  // ---------------------------------------------------------------------

  /** One element of the array `split` returns: a string, or `None` for a capture that did not take part. */
  type Part = Option<string>

  /** The parts the segments contribute, in order: the prose; or the language capture then the body capture. */
  function Parts(segs: seq<Segment>): seq<Part> {
    if segs == [] then []
    else
      (match segs[0]
       case Prose(t) => [Some(t)]
       case Code(lang, _, body) => [lang, Some(body)])
      + Parts(segs[1..])
  }

  /** `text.split(codeBlockRegex)`. */
  function Split(s: string): seq<Part> {
    Parts(Segments(s))
  }

  /** The parts of alternating segments, one prose and one block at a time. */
  lemma PartsStep(segs: seq<Segment>)
    requires |segs| >= 2 && segs[0].Prose? && segs[1].Code?
    ensures Parts(segs) == [Some(segs[0].text), segs[1].lang, Some(segs[1].body)] + Parts(segs[2..])
  {
    assert segs[1..][1..] == segs[2..];
  }

  /** The i-th prose stretch of a segment list. */
  function ProseAt(segs: seq<Segment>, i: nat): Segment
    requires 2 * i < |segs|
  {
    segs[2 * i]
  }

  /** The i-th code block of a segment list. */
  function BlockAt(segs: seq<Segment>, i: nat): Segment
    requires 2 * i + 1 < |segs|
  {
    segs[2 * i + 1]
  }

  /** Where the i-th prose stretch and the i-th block of n go in the split array. */
  lemma {:induction false} PartsAt(segs: seq<Segment>, n: nat, i: nat)
    requires Alternating(segs) && |segs| == 2 * n + 1 && i <= n
    decreases n
    ensures |Parts(segs)| == 3 * n + 1
    ensures ProseAt(segs, i).Prose? && Parts(segs)[3 * i] == Some(ProseAt(segs, i).text)
    ensures i < n ==> BlockAt(segs, i).Code? && Parts(segs)[3 * i + 1] == BlockAt(segs, i).lang
    ensures i < n ==> Parts(segs)[3 * i + 2] == Some(BlockAt(segs, i).body)
  {
    if n == 0 {
      assert segs[1..] == [];
    } else {
      var rest := segs[2..];
      AlternatingCons(segs);
      PartsStep(segs);
      var head := [Some(segs[0].text), segs[1].lang, Some(segs[1].body)];
      if i == 0 {
        PartsAt(rest, n - 1, 0);
      } else {
        PartsAt(rest, n - 1, i - 1);
        var k := 3 * (i - 1);
        assert 3 * i == k + 3;
        assert ProseAt(segs, i) == ProseAt(rest, i - 1);
        assert Parts(segs)[k + 3] == Parts(rest)[k];
        if i < n {
          assert BlockAt(segs, i) == BlockAt(rest, i - 1);
          assert Parts(segs)[k + 4] == Parts(rest)[k + 1];
          assert Parts(segs)[k + 5] == Parts(rest)[k + 2];
        }
      }
    }
  }

  /**
   * The split array of a message with n blocks has 3n + 1 parts: index 3i
   * is the i-th prose stretch, 3i + 1 the i-th language capture and 3i + 2
   * the i-th body; so it starts and ends with prose.
   */
  lemma SplitLayout(s: string, n: nat)
    requires |Segments(s)| == 2 * n + 1
    ensures |Split(s)| == 3 * n + 1
    ensures forall i :: 0 <= i <= n ==> ProseAt(Segments(s), i).Prose?
    ensures forall i :: 0 <= i < n ==> BlockAt(Segments(s), i).Code?
    ensures forall i :: 0 <= i <= n ==> Split(s)[3 * i] == Some(ProseAt(Segments(s), i).text)
    ensures forall i :: 0 <= i < n ==> Split(s)[3 * i + 1] == BlockAt(Segments(s), i).lang
    ensures forall i :: 0 <= i < n ==> Split(s)[3 * i + 2] == Some(BlockAt(Segments(s), i).body)
  {
    var segs := Segments(s);
    PartsAt(segs, n, 0);
    forall i | 0 <= i <= n
      ensures ProseAt(segs, i).Prose? && (i < n ==> BlockAt(segs, i).Code?)
      ensures Split(s)[3 * i] == Some(ProseAt(segs, i).text)
      ensures i < n ==> Split(s)[3 * i + 1] == BlockAt(segs, i).lang
      ensures i < n ==> Split(s)[3 * i + 2] == Some(BlockAt(segs, i).body)
    {
      PartsAt(segs, n, i);
    }
  }

  const NoContentText: string := "No content to display"
  const DefaultLanguage: string := "text"

  /** What the renderer hands to the markdown and syntax highlighting libraries. */
  datatype Rendered =
    | Markdown(source: string)
    | Highlighted(language: string, title: string, code: string)

  /** The result of rendering a message: the placeholder, or one entry per part (`None` where the source returns null). */
  datatype Plan = Placeholder(message: string) | Elements(items: seq<Option<Rendered>>)

  function PartText(p: Part): string {
    if p.Some? then p.value else ""
  }

  /** `parts[index - 1]?.trim() || 'text'`. */
  function LanguageOf(p: Part): (r: string)
    ensures r != ""
    ensures p.None? || AllWhiteSpace(p.value) ==> r == DefaultLanguage
    ensures p.Some? && !AllWhiteSpace(p.value) ==> r == Trim(p.value)
  {
    if p.Some? then
      TrimEmptyIffBlank(p.value);
      if Trim(p.value) != "" then Trim(p.value) else DefaultLanguage
    else DefaultLanguage
  }

  /** The callback of `parts.map`, classifying the part at `index` by `index % 3`. */
  function RenderPart(parts: seq<Part>, index: nat): Option<Rendered>
    requires index < |parts|
  {
    if index % 3 == 2 then Some(RenderBody(parts[index - 1], parts[index]))
    else if (index + 1) % 3 == 2 then None
    else RenderProse(parts[index])
  }

  /** A body part, shown in the language of the part before it, under that language uppercased, trimmed. */
  function RenderBody(langPart: Part, bodyPart: Part): Rendered {
    var language := LanguageOf(langPart);
    Highlighted(language, ToUpperAscii(language), Trim(PartText(bodyPart)))
  }

  /** A prose part: nothing when it trims to empty, otherwise markdown of the untrimmed text. */
  function RenderProse(part: Part): Option<Rendered> {
    if Trim(PartText(part)) == "" then None else Some(Markdown(PartText(part)))
  }

  /** `renderMarkdown(text)`; `None` is an undefined message. */
  function RenderMarkdown(text: Option<string>): (r: Plan)
    ensures r.Placeholder? <==> text.None? || text.value == ""
    ensures r.Placeholder? ==> r.message == NoContentText
    ensures r.Elements? ==> |r.items| == |Split(text.value)|
  {
    if text.None? || text.value == "" then Placeholder(NoContentText)
    else Elements(RenderParts(Split(text.value)))
  }

  /** `parts.map(...)`. */
  function RenderParts(parts: seq<Part>): seq<Option<Rendered>> {
    seq(|parts|, i requires 0 <= i < |parts| => RenderPart(parts, i))
  }

  /** A language capture is left alone by `trim`. */
  lemma TrimLanguage(w: string)
    requires w != "" && forall i :: 0 <= i < |w| ==> IsLangChar(w[i])
    ensures Trim(w) == w
  {
    LangCharIsNotWhiteSpace(w[0]);
    LangCharIsNotWhiteSpace(w[|w| - 1]);
    assert SkipBlank(w, 0) == 0;
    assert SkipBlankBack(w, 0, |w|) == |w|;
  }

  lemma LangCharIsNotWhiteSpace(c: char)
    requires IsLangChar(c)
    ensures !IsWhiteSpace(c)
  {
  }

  /** The language a block is shown in: its capture, or "text" when there is none. */
  function BlockLanguage(lang: Option<string>): string {
    if lang.Some? then lang.value else DefaultLanguage
  }

  /** How a block is shown: trimmed, in its language ("text" when absent), titled with that language uppercased. */
  function ShownCode(lang: Option<string>, body: string): Rendered {
    Highlighted(BlockLanguage(lang), ToUpperAscii(BlockLanguage(lang)), Trim(body))
  }

  /** A prose part renders as markdown, untrimmed, unless it is white space only. */
  lemma RenderProsePart(parts: seq<Part>, i: nat, text: string)
    requires 3 * i < |parts| && parts[3 * i] == Some(text)
    ensures RenderParts(parts)[3 * i] == if AllWhiteSpace(text) then None else Some(Markdown(text))
  {
    var index := 3 * i;
    assert RenderParts(parts)[index] == RenderPart(parts, index);
    assert RenderPart(parts, index) == RenderProse(Some(text)) by {
      Mod3(i);
    }
    TrimEmptyIffBlank(text);
  }

  /** A language part renders nothing. */
  lemma RenderLanguagePart(parts: seq<Part>, i: nat)
    requires 3 * i + 1 < |parts|
    ensures RenderParts(parts)[3 * i + 1] == None
  {
    Mod3(i);
  }

  /** A body renders trimmed, in the block's language ("text" when absent), titled with the language uppercased. */
  lemma RenderBodyPart(parts: seq<Part>, i: nat, lang: Option<string>, body: string)
    requires 3 * i + 2 < |parts|
    requires parts[3 * i + 1] == lang && parts[3 * i + 2] == Some(body) && IsLanguageCapture(lang)
    ensures RenderParts(parts)[3 * i + 2] == Some(ShownCode(lang, body))
  {
    var index := 3 * i + 2;
    Mod3(i);
    LanguageOfCapture(lang);
    assert RenderPart(parts, index) == Some(RenderBody(lang, Some(body)));
  }

  /** The language a captured block is shown in is its capture, or "text" when it has none. */
  lemma LanguageOfCapture(lang: Option<string>)
    requires IsLanguageCapture(lang)
    ensures LanguageOf(lang) == BlockLanguage(lang)
  {
    if lang.Some? {
      TrimLanguage(lang.value);
    }
  }

  lemma Mod3(i: nat)
    ensures (3 * i) % 3 == 0 && (3 * i + 1) % 3 == 1 && (3 * i + 2) % 3 == 2 && (3 * i + 1 + 1) % 3 == 2
  {
  }

  /** Prose stretch i of well-formed segments with n blocks, as rendered. */
  lemma RenderedProseAt(segs: seq<Segment>, n: nat, i: nat)
    requires Alternating(segs) && |segs| == 2 * n + 1 && i <= n
    ensures var items := RenderParts(Parts(segs));
      && |items| == 3 * n + 1
      && ProseAt(segs, i).Prose?
      && items[3 * i] == (if AllWhiteSpace(ProseAt(segs, i).text) then None else Some(Markdown(ProseAt(segs, i).text)))
  {
    var parts := Parts(segs);
    var seg := ProseAt(segs, i);
    assert |parts| == 3 * n + 1 && seg.Prose? && parts[3 * i] == Some(seg.text) by {
      PartsAt(segs, n, i);
    }
    RenderProsePart(parts, i, seg.text);
  }

  /** Block i of well-formed segments with n blocks, as rendered. */
  lemma RenderedBlockAt(segs: seq<Segment>, n: nat, i: nat)
    requires Alternating(segs) && |segs| == 2 * n + 1 && i < n
    requires segs[2 * i + 1].Code? ==> IsLanguageCapture(segs[2 * i + 1].lang)
    ensures var items := RenderParts(Parts(segs));
      && |items| == 3 * n + 1
      && BlockAt(segs, i).Code?
      && items[3 * i + 1] == None
      && items[3 * i + 2] == Some(ShownCode(BlockAt(segs, i).lang, BlockAt(segs, i).body))
  {
    var parts := Parts(segs);
    var seg := BlockAt(segs, i);
    assert |parts| == 3 * n + 1 && seg.Code? && parts[3 * i + 1] == seg.lang && parts[3 * i + 2] == Some(seg.body) by {
      PartsAt(segs, n, i);
    }
    RenderLanguagePart(parts, i);
    RenderBodyPart(parts, i, seg.lang, seg.body);
  }

  /**
   * What a non-empty message with n blocks renders to, block by block: a
   * language part renders nothing; a body renders trimmed, in the block's
   * language ("text" when absent), titled with that language uppercased; a
   * prose stretch renders as markdown, untrimmed, unless it is white space
   * only, when it renders nothing.
   */
  lemma RenderedBlocks(s: string, n: nat)
    requires s != "" && |Segments(s)| == 2 * n + 1
    ensures var segs := Segments(s);
      var r := RenderMarkdown(Some(s));
      && r.Elements? && |r.items| == 3 * n + 1
      && (forall i :: 0 <= i <= n ==> ProseAt(segs, i).Prose?)
      && (forall i :: 0 <= i < n ==> BlockAt(segs, i).Code?)
      && (forall i :: 0 <= i <= n ==>
            r.items[3 * i] == if AllWhiteSpace(ProseAt(segs, i).text) then None else Some(Markdown(ProseAt(segs, i).text)))
      && (forall i :: 0 <= i < n ==> r.items[3 * i + 1] == None)
      && (forall i :: 0 <= i < n ==> r.items[3 * i + 2] == Some(ShownCode(BlockAt(segs, i).lang, BlockAt(segs, i).body)))
  {
    var segs := Segments(s);
    var items := RenderMarkdown(Some(s)).items;
    RenderedProseAt(segs, n, 0);
    forall i | 0 <= i <= n ensures ProseAt(segs, i).Prose? && (i < n ==> BlockAt(segs, i).Code?) {
      PartsAt(segs, n, i);
    }
    forall i | 0 <= i <= n
      ensures items[3 * i] == if AllWhiteSpace(ProseAt(segs, i).text) then None else Some(Markdown(ProseAt(segs, i).text))
    {
      RenderedProseAt(segs, n, i);
    }
    forall i | 0 <= i < n
      ensures items[3 * i + 1] == None
      ensures items[3 * i + 2] == Some(ShownCode(BlockAt(segs, i).lang, BlockAt(segs, i).body))
    {
      RenderedBlockAt(segs, n, i);
      PartsAt(segs, n, i);
    }
  }

  // ---------------------------------------------------------------------
  // The `code` override passed to the markdown library
  // ---------------------------------------------------------------------

  const LanguagePrefix: string := "language-"

  /** `/language-(\w+)/` matches at k: the prefix and at least one word character. */
  predicate ClassMatchAt(s: string, k: int) {
    0 <= k && k + |LanguagePrefix| < |s| && s[k..k + |LanguagePrefix|] == LanguagePrefix
    && IsWordChar(s[k + |LanguagePrefix|])
  }

  /** The leftmost match of `/language-(\w+)/` at or after `from`. */
  function FindClassMatch(s: string, from: nat): (r: Option<nat>)
    requires from <= |s|
    decreases |s| - from
    ensures r.Some? ==> from <= r.value && ClassMatchAt(s, r.value)
    ensures r.Some? ==> forall k :: from <= k < r.value ==> !ClassMatchAt(s, k)
    ensures r.None? ==> forall k :: from <= k ==> !ClassMatchAt(s, k)
  {
    if from + |LanguagePrefix| >= |s| then None
    else if ClassMatchAt(s, from) then Some(from)
    else FindClassMatch(s, from + 1)
  }

  /** `className || ''`. */
  function ClassText(className: Option<string>): string {
    if className.Some? then className.value else ""
  }

  /**
   * Capture 1 of `/language-(\w+)/.exec(className || '')`: the whole run of
   * word characters after the leftmost "language-" that has at least one.
   */
  function ClassLanguage(className: Option<string>): (r: Option<string>)
    ensures var s := ClassText(className);
      r.Some? <==> exists k :: 0 <= k < |s| && ClassMatchAt(s, k)
    ensures r.Some? ==> r.value != "" && forall i :: 0 <= i < |r.value| ==> IsWordChar(r.value[i])
  {
    var s := ClassText(className);
    match FindClassMatch(s, 0)
    case None => None
    case Some(k) => Some(s[k + |LanguagePrefix|..WordRunEnd(s, k + |LanguagePrefix|, false)])
  }

  /**
   * The language comes from the leftmost match: it directly follows the
   * first "language-" that has a word character after it, and the run ends
   * at the end of the names or at a character that is not a word character.
   */
  lemma ClassLanguageLeftmost(className: Option<string>)
    ensures var s := ClassText(className); var r := ClassLanguage(className);
      r.Some? ==>
        exists k :: ClassMatchAt(s, k) && (forall k' :: 0 <= k' < k ==> !ClassMatchAt(s, k'))
          && k + |LanguagePrefix| + |r.value| <= |s|
          && s[k..k + |LanguagePrefix| + |r.value|] == LanguagePrefix + r.value
          && (k + |LanguagePrefix| + |r.value| == |s| || !IsWordChar(s[k + |LanguagePrefix| + |r.value|]))
  {
    var s := ClassText(className);
    match FindClassMatch(s, 0)
    case None =>
    case Some(k) =>
      var start := k + |LanguagePrefix|;
      var end := WordRunEnd(s, start, false);
      var r := s[start..end];
      assert ClassLanguage(className) == Some(r);
      assert end == k + |LanguagePrefix| + |r|;
      SliceJoin(s, k, start, end);
      assert s[k..start] == LanguagePrefix;
      assert s[k..end] == LanguagePrefix + r;
  }

  /** `s.replace(/\n$/, '')`: without the `m` flag `$` is the end of the string only, so at most one "\n" goes. */
  function StripFinalNewline(s: string): (r: string)
    ensures |s| > 0 && s[|s| - 1] == '\n' ==> s == r + "\n"
    ensures !(|s| > 0 && s[|s| - 1] == '\n') ==> r == s
  {
    if |s| > 0 && s[|s| - 1] == '\n' then s[..|s| - 1] else s
  }

  /** What the `code` override renders. */
  datatype CodeView = HighlightedCode(language: string, code: string) | InlineCode(children: string)

  /**
   * The `code` override: highlighted exactly when the element is not inline
   * and the class names a language, in that language, with one final line
   * break removed; otherwise the children unchanged. An absent `inline` is
   * `false`.
   */
  function RenderCode(inline: bool, className: Option<string>, children: string): (r: CodeView)
    ensures r.HighlightedCode? <==> !inline && ClassLanguage(className).Some?
    ensures r.HighlightedCode? ==> Some(r.language) == ClassLanguage(className)
    ensures r.HighlightedCode? ==> children == r.code || children == r.code + "\n"
    ensures r.HighlightedCode? && children != [] && children[|children| - 1] == '\n' ==> children == r.code + "\n"
    ensures r.InlineCode? ==> r.children == children
  {
    var lang := ClassLanguage(className);
    if !inline && lang.Some? then HighlightedCode(lang.value, StripFinalNewline(children))
    else InlineCode(children)
  }

  /** A block between two stretches of prose, with a language word. */
  lemma ExampleBlock()
    ensures Segments("a```py\nx```b") == [Prose("a"), Code(Some("py"), "\n", "x"), Prose("b")]
  {
    var s := "a```py\nx```b";
    assert !FenceAt(s, 0) && FenceAt(s, 1);
    assert WordRunEnd(s, 6, true) == 6;
    assert WordRunEnd(s, 4, true) == 6 by { assert WordRunEnd(s, 5, true) == 6; }
    assert LineBreakAt(s, 6) == Some("\n");
    assert FindFence(s, 7) == Some(8) by { assert !FenceAt(s, 7) && FenceAt(s, 8); }
    assert s[4..6] == "py" && s[7..8] == "x";
    assert MatchAt(s, 1) == Some(FenceMatch(Some("py"), "\n", "x", 11));
    assert Scan(s, 11, 11) == [Prose("b")] by { assert !FenceAt(s, 11) && s[11..] == "b"; }
    assert s[0..1] == "a";
    assert Scan(s, 0, 1) == [Prose("a"), Code(Some("py"), "\n", "x")] + Scan(s, 11, 11);
  }

  /** No language word: the capture is undefined; a "\r\n" is taken whole; the prose at both ends is empty. */
  lemma ExampleNoLanguage()
    ensures Segments("```\r\nx```") == [Prose(""), Code(None, "\r\n", "x"), Prose("")]
  {
    var s := "```\r\nx```";
    assert FenceAt(s, 0);
    assert WordRunEnd(s, 3, true) == 3;
    assert LineBreakAt(s, 3) == Some("\r\n");
    assert FindFence(s, 5) == Some(6) by { assert !FenceAt(s, 5) && FenceAt(s, 6); }
    assert LanguageCapture(s, 3, 3) == None && s[5..6] == "x";
    assert MatchAt(s, 0) == Some(FenceMatch(None, "\r\n", "x", 9));
    assert |s| == 9 && s[9..] == "";
  }

  /** Four closing backticks: the block closes at the first three, and the fourth is left over. */
  lemma ExampleFirstFence()
    ensures MatchAt("```\nx````", 0) == Some(FenceMatch(None, "\n", "x", 8))
  {
    var s := "```\nx````";
    assert FenceAt(s, 0);
    assert WordRunEnd(s, 3, true) == 3;
    assert LineBreakAt(s, 3) == Some("\n");
    assert FindFence(s, 4) == Some(5) by { assert !FenceAt(s, 4) && FenceAt(s, 5); }
    assert s[4..5] == "x";
  }

  /**
   * Two blocks no split produces: a lone "\r" before a body starting with
   * "\n" (the "\r\n" would have been taken whole), and a body ending in a
   * backtick that, with the closing fence, makes an earlier "```".
   */
  lemma ExampleInvalidBlocks()
    ensures !ValidBlock(None, "\r", "\nx")
    ensures !ValidBlock(None, "\n", "x`")
  {
    ClosesAtFirstFence("x`");
    assert FenceAt("x`" + Fence[..2], 1);
  }

  /** An opening fence with no closing one is left as prose. */
  lemma ExampleUnclosed()
    ensures Segments("```py\nx") == [Prose("```py\nx")]
  {
    var s := "```py\nx";
    assert WordRunEnd(s, 3, true) == 5 by { assert WordRunEnd(s, 4, true) == 5; }
    assert MatchAt(s, 0).None?;
    assert forall q :: 1 <= q < |s| ==> !FenceAt(s, q);
    assert Scan(s, 0, 1) == [Prose(s)] by {
      assert Scan(s, 0, 5) == [Prose(s)] by { assert Scan(s, 0, 6) == [Prose(s)]; }
      assert Scan(s, 0, 3) == Scan(s, 0, 4) == Scan(s, 0, 5);
    }
  }

  /** The leftmost "language-" followed by a word character starts at index 2. */
  lemma ExampleClassMatch()
    ensures FindClassMatch("x language-ts-1", 0) == Some(2)
  {
    var s := "x language-ts-1";
    assert s[0..9][0] == 'x' && s[1..10][0] == ' ' && LanguagePrefix[0] == 'l';
    assert !ClassMatchAt(s, 0) && !ClassMatchAt(s, 1) && ClassMatchAt(s, 2);
  }

  /** The language is the whole word run after that "language-": the dash ends it. */
  lemma ExampleClassLanguage()
    ensures ClassLanguage(Some("x language-ts-1")) == Some("ts")
  {
    var s := "x language-ts-1";
    ExampleClassMatch();
    assert WordRunEnd(s, 13, false) == 13;
    assert WordRunEnd(s, 11, false) == 13 by { assert WordRunEnd(s, 12, false) == 13; }
    assert s[11..13] == "ts";
  }

  /** The word run after the first "language-" is the language, and only the last "\n" goes. */
  lemma ExampleCodeOverride()
    ensures RenderCode(false, Some("x language-ts-1"), "a\n\n") == HighlightedCode("ts", "a\n")
  {
    ExampleClassLanguage();
    assert "a\n\n"[..2] == "a\n";
  }

}
