/** The paragraph packer with its hard-split fallback (chunks/service.go). */
module Chunker {
  import opened Text

  const MAX_CHUNK_RUNES: nat := 900

  type Bound = n: nat | n > 0 witness 1

  function EffectiveBound(maxRunes: int): Bound {
    if maxRunes <= 0 then MAX_CHUNK_RUNES else maxRunes
  }

  function HardSplit(s: string, max: Bound): seq<string> {
    if s == "" then []
    else if |s| <= max then [s]
    else [s[..max]] + HardSplit(s[max..], max)
  }

  function Flushed(cur: seq<string>): seq<string> {
    if cur == [] then [] else [Join(cur, BREAK)]
  }

  /** The chunks of the buffered paragraphs `cur` followed by the paragraphs `ps`. */
  function Pack(cur: seq<string>, ps: seq<string>, max: Bound): seq<string>
    decreases |ps|, |cur|
  {
    if ps == [] then Flushed(cur)
    else if Overflows(cur, ps[0], max) then Flushed(cur) + Pack([], ps, max)
    else if |ps[0]| > max then HardSplit(ps[0], max) + Pack([], ps[1..], max)
    else Pack(cur + [ps[0]], ps[1..], max)
  }

  predicate Overflows(cur: seq<string>, p: string, max: Bound) {
    cur != [] && |Join(cur, BREAK)| + |p| > max
  }

  function Split(s: string, maxRunes: int): seq<string> {
    Pack([], Paragraphs(s), EffectiveBound(maxRunes))
  }

  // ---- the loops of the source, against the specification

  method HardSplitRunes(s: string, max: Bound) returns (chunks: seq<string>)
    ensures chunks == HardSplit(s, max)
  {
    chunks := [];
    var runes := s;
    while |runes| > 0
      invariant chunks + HardSplit(runes, max) == HardSplit(s, max)
      decreases |runes|
    {
      if |runes| <= max {
        chunks := chunks + [runes];
        break;
      }
      chunks := chunks + [runes[..max]];
      runes := runes[max..];
    }
  }

  method Flush(cur: string, out: seq<string>) returns (out': seq<string>)
    ensures out' == if TrimSpace(cur) == "" then out else out + [TrimSpace(cur)]
  {
    var t := TrimSpace(cur);
    out' := out;
    if t != "" {
      out' := out' + [t];
    }
  }

  method SplitIntoChunks(text: string, maxRunes: int) returns (out: seq<string>)
    ensures out == Split(text, maxRunes)
  {
    var max: Bound := EffectiveBound(maxRunes);
    var s := TrimSpace(text);
    if s == "" {
      NoParagraphs();
      return [];
    }
    out := [];
    var paras := SplitParas(s);
    var cur := "";
    var curRunes := 0;
    ghost var buffered: seq<string> := [];
    SplitPiecesHaveNoBreak(s);
    assert paras[0..] == paras;
    for i := 0 to |paras|
      invariant AllParas(buffered) && cur == Join(buffered, BREAK) && curRunes == |cur|
      invariant cur == "" <==> buffered == []
      invariant out + Pack(buffered, Clean(paras[i..]), max) == Split(text, maxRunes)
    {
      var p := TrimSpace(paras[i]);
      ghost var rest := Clean(paras[i + 1..]);
      CleanStep(paras, i);
      if p == "" {
        assert Clean(paras[i..]) == rest;
        continue;
      }
      assert Clean(paras[i..]) == [p] + rest;
      var r := |p|;
      if curRunes + r > max && curRunes > 0 {
        FlushOfBuffer(buffered);
        PackFlush(out, buffered, p, rest, max);
        out := Flush(cur, out);
        cur, curRunes, buffered := "", 0, [];
      }
      if r > max {
        var pieces := HardSplitRunes(p, max);
        PackHard(out, p, rest, max);
        out := out + pieces;
        continue;
      }
      PackKeep(buffered, p, rest, max);
      if cur != "" {
        JoinSnoc(buffered, p, BREAK);
        cur := cur + BREAK;
        curRunes := curRunes + 2;
      }
      cur := cur + p;
      curRunes := curRunes + r;
      buffered := buffered + [p];
      JoinOfParas(buffered);
    }
    assert paras[|paras|..] == [];
    FlushOfBuffer(buffered);
    out := Flush(cur, out);
  }

  lemma CleanStep(paras: seq<string>, i: nat)
    requires i < |paras|
    ensures var p := TrimSpace(paras[i]);
            && Clean(paras[i..]) == (if p == "" then [] else [p]) + Clean(paras[i + 1..])
            && (p != "" && NoBreak(paras[i]) ==> IsPara(p))
  {
    TrimFacts(paras[i]);
    assert paras[i..][1..] == paras[i + 1..];
  }

  lemma PackFlush(out: seq<string>, cur: seq<string>, p: string, rest: seq<string>, max: Bound)
    requires Overflows(cur, p, max)
    ensures out + Pack(cur, [p] + rest, max) == out + [Join(cur, BREAK)] + Pack([], [p] + rest, max)
  {}

  lemma PackHard(out: seq<string>, p: string, rest: seq<string>, max: Bound)
    requires |p| > max
    ensures out + Pack([], [p] + rest, max) == out + HardSplit(p, max) + Pack([], rest, max)
  {
    assert ([p] + rest)[1..] == rest;
  }

  lemma PackKeep(cur: seq<string>, p: string, rest: seq<string>, max: Bound)
    requires |p| <= max && !Overflows(cur, p, max)
    ensures Pack(cur, [p] + rest, max) == Pack(cur + [p], rest, max)
  {
    assert ([p] + rest)[1..] == rest;
  }

  lemma FlushOfBuffer(cur: seq<string>)
    requires AllParas(cur)
    ensures TrimSpace(Join(cur, BREAK)) == Join(cur, BREAK)
    ensures cur != [] ==> Join(cur, BREAK) != "" && Flushed(cur) == [TrimSpace(Join(cur, BREAK))]
  {
    TrimFacts(Join(cur, BREAK));
    if cur != [] {
      JoinOfParas(cur);
    }
  }

  // ---- content conservation

  lemma {:induction false} ConcatAppend(a: seq<string>, b: seq<string>)
    ensures Concat(a + b) == Concat(a) + Concat(b)
  {
    if a == [] {
      assert a + b == b;
    } else {
      assert (a + b)[1..] == a[1..] + b;
      ConcatAppend(a[1..], b);
    }
  }

  lemma {:induction false} HardSplitKeepsText(s: string, max: Bound)
    ensures Concat(HardSplit(s, max)) == s
  {
    if |s| > max {
      HardSplitKeepsText(s[max..], max);
      assert s == s[..max] + s[max..];
      assert HardSplit(s, max)[1..] == HardSplit(s[max..], max);
    } else if s != "" {
      assert Concat([s]) == s + Concat([]) == s;
    }
  }

  lemma {:induction false} SqueezeJoin(ps: seq<string>)
    ensures Squeeze(Join(ps, BREAK)) == Squeeze(Concat(ps))
  {
    if |ps| == 1 {
      assert Concat(ps) == ps[0] + Concat([]) == ps[0];
    } else if |ps| > 1 {
      SqueezeJoin(ps[1..]);
      var rest := Join(ps[1..], BREAK);
      SqueezeAppend(ps[0] + BREAK, rest);
      SqueezeAppend(ps[0], BREAK);
      assert Squeeze(BREAK) == Squeeze(BREAK[1..]) == Squeeze(BREAK[1..][1..]) == "";
      SqueezeAppend(ps[0], Concat(ps[1..]));
    }
  }

  /** Every piece but the last is full, and the last is not empty. */
  predicate FullPieces(pieces: seq<string>, max: Bound) {
    && (forall i | 0 <= i < |pieces| - 1 :: |pieces[i]| == max)
    && (pieces != [] ==> 0 < |pieces[|pieces| - 1]| <= max)
  }

  lemma {:induction false} HardSplitIsFull(s: string, max: Bound)
    ensures FullPieces(HardSplit(s, max), max)
  {
    if |s| > max {
      HardSplitIsFull(s[max..], max);
      FullCons(s[..max], HardSplit(s[max..], max), max);
    }
  }

  lemma FullCons(c: string, rest: seq<string>, max: Bound)
    requires FullPieces(rest, max) && |c| == max
    ensures FullPieces([c] + rest, max)
  {}

  function Ceiling(n: nat, d: Bound): nat {
    (n + d - 1) / d
  }

  lemma CeilingSteps(n: nat, d: Bound)
    ensures n == 0 ==> Ceiling(n, d) == 0
    ensures 0 < n <= d ==> Ceiling(n, d) == 1
    ensures n > d ==> Ceiling(n, d) == 1 + Ceiling(n - d, d)
  {
    if n == 0 {
      SameQuotient(d - 1, d, 0, (d - 1) / d);
    } else {
      OneMoreMultiple(n - 1, d);
      if n <= d {
        SameQuotient(n - 1, d, 0, (n - 1) / d);
      } else {
        assert n - d + d - 1 == n - 1;
      }
    }
  }

  /** n runes are cut into ceiling(n / max) pieces. */
  lemma {:induction false} HardSplitCount(s: string, max: Bound)
    ensures |HardSplit(s, max)| == Ceiling(|s|, max)
  {
    CeilingSteps(|s|, max);
    if |s| > max {
      HardSplitCount(s[max..], max);
    }
  }

  lemma OneMoreMultiple(n: nat, d: Bound)
    ensures (n + d) / d == n / d + 1
  {
    var q, r := n / d, n % d;
    assert n + d == (q + 1) * d + r;
    SameQuotient(n + d, d, q + 1, (n + d) / d);
  }

  lemma SameQuotient(n: nat, d: Bound, q: nat, p: nat)
    requires q * d <= n < q * d + d && p * d <= n < p * d + d
    ensures p == q
  {
    if p < q {
      ProductStep(q, p, d);
    } else if q < p {
      ProductStep(p, q, d);
    }
  }

  /** What a list of texts holds besides white space. */
  function Ink(parts: seq<string>): string {
    Squeeze(Concat(parts))
  }

  lemma InkAppend(a: seq<string>, b: seq<string>)
    ensures Ink(a + b) == Ink(a) + Ink(b)
  {
    ConcatAppend(a, b);
    SqueezeAppend(Concat(a), Concat(b));
  }

  lemma InkFlushed(cur: seq<string>)
    ensures Ink(Flushed(cur)) == Ink(cur)
  {
    SqueezeJoin(cur);
    assert Concat([Join(cur, BREAK)]) == Join(cur, BREAK) + Concat([]) == Join(cur, BREAK);
  }

  lemma InkHardSplit(p: string, max: Bound)
    ensures Ink(HardSplit(p, max)) == Ink([p])
  {
    HardSplitKeepsText(p, max);
    assert Concat([p]) == p + Concat([]) == p;
  }

  lemma Associative(a: string, b: string, c: string)
    ensures (a + b) + c == a + (b + c)
  {}

  lemma {:induction false} PackConserves(cur: seq<string>, ps: seq<string>, max: Bound)
    requires AllParas(cur) && AllParas(ps)
    ensures Ink(Pack(cur, ps, max)) == Ink(cur) + Ink(ps)
    decreases |ps|, |cur|
  {
    if ps == [] {
      InkFlushed(cur);
      assert Ink(ps) == "";
    } else if Overflows(cur, ps[0], max) {
      PackConserves([], ps, max);
      InkFlushed(cur);
      InkAppend(Flushed(cur), Pack([], ps, max));
      assert Ink([]) + Ink(ps) == Ink(ps);
    } else {
      var p, rest := ps[0], ps[1..];
      assert IsPara(p) && ps == [p] + rest;
      InkAppend([p], rest);
      if |p| > max {
        PackConserves([], rest, max);
        InkHardSplit(p, max);
        InkAppend(HardSplit(p, max), Pack([], rest, max));
        assert cur == [] && Ink([]) + Ink(rest) == Ink(rest) && Ink([]) + Ink(ps) == Ink(ps);
      } else {
        PackConserves(cur + [p], rest, max);
        InkAppend(cur, [p]);
        Associative(Ink(cur), Ink([p]), Ink(rest));
      }
    }
  }

  /** Nothing but white space is lost, and nothing is reordered or duplicated. */
  lemma ContentConserved(s: string, maxRunes: int)
    ensures Squeeze(Concat(Split(s, maxRunes))) == Squeeze(s)
  {
    ParagraphsAreParas(s);
    PackConserves([], Paragraphs(s), EffectiveBound(maxRunes));
    assert Ink([]) + Ink(Paragraphs(s)) == Ink(Paragraphs(s));
    SqueezeParagraphs(s);
  }

  // ---- which chunks, independently of the packing loop

  /** The chunks of one group of paragraphs: an over-long one alone is cut, others are joined. */
  function Rendered(g: seq<string>, max: Bound): seq<string> {
    if |g| == 1 && |g[0]| > max then HardSplit(g[0], max) else Flushed(g)
  }

  function AllRendered(gs: seq<seq<string>>, max: Bound): seq<string> {
    if gs == [] then [] else Rendered(gs[0], max) + AllRendered(gs[1..], max)
  }

  function Flat(gs: seq<seq<string>>): seq<string> {
    if gs == [] then [] else gs[0] + Flat(gs[1..])
  }

  ghost predicate IsGroup(g: seq<string>, max: Bound) {
    (|g| == 1 && |g[0]| > max) || (g != [] && Fits(g, max))
  }

  /** Each group is over-long and alone, or was filled paragraph by paragraph until the next one,
      without its break, no longer fitted. */
  ghost predicate Greedy(gs: seq<seq<string>>, max: Bound) {
    && (forall i | 0 <= i < |gs| :: IsGroup(gs[i], max))
    && forall i | 0 <= i < |gs| - 1 :: |Join(gs[i], BREAK)| + |gs[i + 1][0]| > max
  }

  lemma GreedyCons(g: seq<string>, gs: seq<seq<string>>, max: Bound)
    requires Greedy(gs, max) && IsGroup(g, max)
    requires gs != [] ==> |Join(g, BREAK)| + |gs[0][0]| > max
    ensures Greedy([g] + gs, max) && Flat([g] + gs) == g + Flat(gs)
    ensures AllRendered([g] + gs, max) == Rendered(g, max) + AllRendered(gs, max)
  {
    assert ([g] + gs)[1..] == gs;
  }

  lemma FlatHead(gs: seq<seq<string>>, max: Bound)
    requires Greedy(gs, max)
    ensures gs != [] ==> Flat(gs) != [] && Flat(gs)[0] == gs[0][0]
    ensures gs == [] ==> Flat(gs) == []
  {
    if gs != [] {
      assert IsGroup(gs[0], max);
    }
  }

  /** The groups behind the packing of a buffer and the paragraphs still to come. */
  lemma {:induction false} PackGroups(cur: seq<string>, ps: seq<string>, max: Bound) returns (gs: seq<seq<string>>)
    requires AllParas(ps) && Fits(cur, max)
    ensures Greedy(gs, max) && Flat(gs) == cur + ps && AllRendered(gs, max) == Pack(cur, ps, max)
    decreases |ps|, |cur|
  {
    if ps == [] {
      gs := if cur == [] then [] else [cur];
      GroupOfBuffer(cur, max);
    } else if Overflows(cur, ps[0], max) {
      var rest := PackGroups([], ps, max);
      assert [] + ps == ps;
      FlushGroup(cur, ps, rest, max);
      gs := [cur] + rest;
    } else if |ps[0]| > max {
      var rest := PackGroups([], ps[1..], max);
      assert [] + ps[1..] == ps[1..];
      CutGroup(cur, ps, rest, max);
      gs := [[ps[0]]] + rest;
    } else {
      assert IsPara(ps[0]);
      FitsSnoc(cur, ps[0], max);
      gs := PackGroups(cur + [ps[0]], ps[1..], max);
      Shift(cur, ps);
    }
  }

  lemma FlushGroup(cur: seq<string>, ps: seq<string>, rest: seq<seq<string>>, max: Bound)
    requires Fits(cur, max) && ps != [] && Overflows(cur, ps[0], max)
    requires Greedy(rest, max) && Flat(rest) == ps && AllRendered(rest, max) == Pack([], ps, max)
    ensures var gs := [cur] + rest;
            Greedy(gs, max) && Flat(gs) == cur + ps && AllRendered(gs, max) == Pack(cur, ps, max)
  {
    FlatHead(rest, max);
    FitsIsWhole(cur, max);
    GreedyCons(cur, rest, max);
  }

  lemma CutGroup(cur: seq<string>, ps: seq<string>, rest: seq<seq<string>>, max: Bound)
    requires ps != [] && !Overflows(cur, ps[0], max) && |ps[0]| > max
    requires Greedy(rest, max) && Flat(rest) == ps[1..] && AllRendered(rest, max) == Pack([], ps[1..], max)
    ensures var gs := [[ps[0]]] + rest;
            Greedy(gs, max) && Flat(gs) == cur + ps && AllRendered(gs, max) == Pack(cur, ps, max)
  {
    GreedyCons([ps[0]], rest, max);
    assert cur + ps == [ps[0]] + ps[1..];
  }

  lemma GroupOfBuffer(cur: seq<string>, max: Bound)
    requires Fits(cur, max)
    ensures var gs := if cur == [] then [] else [cur];
            Greedy(gs, max) && Flat(gs) == cur + [] && AllRendered(gs, max) == Flushed(cur)
  {
    if cur != [] {
      FitsIsWhole(cur, max);
      GreedyCons(cur, [], max);
      assert [cur] + [] == [cur];
    }
  }

  lemma FitsIsWhole(g: seq<string>, max: Bound)
    requires Fits(g, max) && g != []
    ensures Rendered(g, max) == [Join(g, BREAK)]
  {
    assert g[0] in g;
  }

  /** The chunks of a text are those of some greedy grouping of all its paragraphs, in order. */
  lemma SplitIsGreedy(s: string, maxRunes: int) returns (gs: seq<seq<string>>)
    ensures Greedy(gs, EffectiveBound(maxRunes)) && Flat(gs) == Paragraphs(s)
    ensures Split(s, maxRunes) == AllRendered(gs, EffectiveBound(maxRunes))
  {
    ParagraphsAreParas(s);
    gs := PackGroups([], Paragraphs(s), EffectiveBound(maxRunes));
    assert [] + Paragraphs(s) == Paragraphs(s);
  }

  lemma {:induction false} RenderedInPlace(gs: seq<seq<string>>, k: nat, max: Bound) returns (at: nat)
    requires k < |gs|
    ensures at + |Rendered(gs[k], max)| <= |AllRendered(gs, max)|
    ensures AllRendered(gs, max)[at..at + |Rendered(gs[k], max)|] == Rendered(gs[k], max)
    decreases k
  {
    var head, tail := Rendered(gs[0], max), AllRendered(gs[1..], max);
    if k == 0 {
      at := 0;
      SliceFirst(head, tail);
    } else {
      var i := RenderedInPlace(gs[1..], k - 1, max);
      at := |head| + i;
      SliceAfter(head, tail, i, i + |Rendered(gs[k], max)|);
    }
  }

  lemma SliceFirst<T>(head: seq<T>, tail: seq<T>)
    ensures (head + tail)[..|head|] == head
  {}

  lemma SliceAfter<T>(head: seq<T>, tail: seq<T>, i: nat, j: nat)
    requires i <= j <= |tail|
    ensures (head + tail)[|head| + i..|head| + j] == tail[i..j]
  {}

  lemma OverlongAlone(g: seq<string>, p: string, max: Bound)
    requires IsGroup(g, max) && p in g && |p| > max
    ensures Rendered(g, max) == HardSplit(p, max)
  {}

  lemma {:induction false} InSomeGroup(gs: seq<seq<string>>, p: string) returns (k: nat)
    requires p in Flat(gs)
    ensures k < |gs| && p in gs[k]
  {
    if p in gs[0] {
      k := 0;
    } else {
      k := InSomeGroup(gs[1..], p);
      k := k + 1;
    }
  }

  lemma PiecesInPlace(s: string, maxRunes: int, p: string) returns (at: nat)
    requires p in Paragraphs(s) && |p| > EffectiveBound(maxRunes)
    ensures var pieces := HardSplit(p, EffectiveBound(maxRunes));
            at + |pieces| <= |Split(s, maxRunes)| && Split(s, maxRunes)[at..at + |pieces|] == pieces
  {
    var gs := SplitIsGreedy(s, maxRunes);
    var k := InSomeGroup(gs, p);
    OverlongAlone(gs[k], p, EffectiveBound(maxRunes));
    at := RenderedInPlace(gs, k, EffectiveBound(maxRunes));
  }

  /** An over-long paragraph is cut alone: its full pieces and the remainder stand in the answer
      one after the other. */
  lemma OverlongCutInPlace(s: string, maxRunes: int, p: string) returns (at: nat, n: nat)
    requires p in Paragraphs(s) && |p| > EffectiveBound(maxRunes)
    ensures n == Ceiling(|p|, EffectiveBound(maxRunes)) && at + n <= |Split(s, maxRunes)|
    ensures Concat(Split(s, maxRunes)[at..at + n]) == p
    ensures FullPieces(Split(s, maxRunes)[at..at + n], EffectiveBound(maxRunes))
  {
    var max := EffectiveBound(maxRunes);
    HardSplitCount(p, max);
    n := |HardSplit(p, max)|;
    at := PiecesInPlace(s, maxRunes, p);
    HardSplitIsFull(p, max);
    HardSplitKeepsText(p, max);
  }

  // ---- sizes

  /** A greedily packed group: each further paragraph fitted before its break was counted. */
  ghost predicate Fits(g: seq<string>, max: Bound) {
    && AllParas(g)
    && (forall p | p in g :: |p| <= max)
    && forall k | 1 <= k < |g| :: |Join(g[..k], BREAK)| + |g[k]| <= max
  }

  lemma FitsSnoc(g: seq<string>, p: string, max: Bound)
    requires Fits(g, max) && IsPara(p) && |p| <= max
    requires g != [] ==> |Join(g, BREAK)| + |p| <= max
    ensures Fits(g + [p], max)
  {
    var h := g + [p];
    forall k | 1 <= k < |h| ensures |Join(h[..k], BREAK)| + |h[k]| <= max {
      if k < |g| {
        assert h[..k] == g[..k];
      } else {
        assert h[..k] == g;
      }
    }
  }

  lemma FitsLength(g: seq<string>, max: Bound)
    requires Fits(g, max) && g != []
    ensures 0 < |Join(g, BREAK)| <= max + 2
    ensures |g| == 1 ==> |Join(g, BREAK)| <= max
  {
    if |g| == 1 {
      assert g[0] in g && Join(g, BREAK) == g[0];
    } else {
      var init, last := g[..|g| - 1], g[|g| - 1];
      assert |Join(init, BREAK)| + |last| <= max && last in g && IsPara(last);
      JoinSnoc(init, last, BREAK);
      assert g == init + [last];
    }
  }

  /** What every chunk is: a greedily packed group, or a piece of an over-long paragraph. */
  ghost predicate IsPacked(c: string, max: Bound) {
    exists g :: Fits(g, max) && g != [] && c == Join(g, BREAK)
  }

  ghost predicate IsHardPiece(c: string, max: Bound) {
    0 < |c| <= max && NoBreak(c)
  }

  ghost predicate WellMade(cs: seq<string>, max: Bound) {
    forall c | c in cs :: IsPacked(c, max) || IsHardPiece(c, max)
  }

  lemma {:induction false} HardPieces(s: string, max: Bound)
    requires NoBreak(s)
    ensures forall c | c in HardSplit(s, max) :: IsHardPiece(c, max)
  {
    if |s| > max {
      var head, tail := s[..max], s[max..];
      assert forall i | 0 <= i < |tail| :: tail[i] == s[max + i];
      assert IsHardPiece(head, max);
      HardPieces(tail, max);
    }
  }

  lemma {:induction false} PackIsWellMade(cur: seq<string>, ps: seq<string>, max: Bound)
    requires Fits(cur, max) && AllParas(ps)
    ensures WellMade(Pack(cur, ps, max), max)
    decreases |ps|, |cur|
  {
    assert cur != [] ==> IsPacked(Join(cur, BREAK), max);
    if ps != [] {
      var p := ps[0];
      assert IsPara(p);
      if Overflows(cur, p, max) {
        PackIsWellMade([], ps, max);
      } else if |p| > max {
        HardPieces(p, max);
        PackIsWellMade([], ps[1..], max);
      } else {
        FitsSnoc(cur, p, max);
        PackIsWellMade(cur + [p], ps[1..], max);
      }
    }
  }

  /** A chunk of one paragraph has at most max runes, a packed one at most max + 2. */
  lemma ChunkSizes(s: string, maxRunes: int)
    ensures forall c | c in Split(s, maxRunes) ::
              && 0 < |c| <= EffectiveBound(maxRunes) + 2
              && (|Paragraphs(c)| <= 1 ==> |c| <= EffectiveBound(maxRunes))
  {
    var max := EffectiveBound(maxRunes);
    ParagraphsAreParas(s);
    PackIsWellMade([], Paragraphs(s), max);
    forall c | c in Split(s, maxRunes)
      ensures 0 < |c| <= max + 2 && (|Paragraphs(c)| <= 1 ==> |c| <= max)
    {
      if IsPacked(c, max) {
        var g :| Fits(g, max) && g != [] && c == Join(g, BREAK);
        FitsLength(g, max);
        ParagraphsOfJoin(g);
      }
    }
  }

  /** The guard that lets a chunk outgrow the bound: a paragraph fits, but its break does not. */
  predicate BreakOverhangs(cur: seq<string>, ps: seq<string>, max: Bound)
    decreases |ps|, |cur|
  {
    ps != [] &&
    if Overflows(cur, ps[0], max) then BreakOverhangs([], ps, max)
    else if |ps[0]| > max then BreakOverhangs([], ps[1..], max)
    else Overflows(cur, BREAK + ps[0], max) || BreakOverhangs(cur + [ps[0]], ps[1..], max)
  }

  ghost predicate SomeOversize(cs: seq<string>, max: Bound) {
    exists c :: c in cs && |c| > max
  }

  lemma OversizeAppend(a: seq<string>, b: seq<string>, max: Bound)
    ensures SomeOversize(a + b, max) <==> SomeOversize(a, max) || SomeOversize(b, max)
  {
    assert forall c :: c in a + b <==> c in a || c in b;
  }

  /** Once a group outgrows the bound it is flushed as it stands. */
  lemma {:induction false} OversizeStays(cur: seq<string>, ps: seq<string>, max: Bound)
    requires cur != [] && |Join(cur, BREAK)| > max && AllParas(ps)
    ensures SomeOversize(Pack(cur, ps, max), max)
  {
    assert SomeOversize([Join(cur, BREAK)], max) by { assert Join(cur, BREAK) in [Join(cur, BREAK)]; }
    if ps != [] {
      assert Overflows(cur, ps[0], max);
      OversizeAppend(Flushed(cur), Pack([], ps, max), max);
    }
  }

  lemma {:induction false} OverhangDecides(cur: seq<string>, ps: seq<string>, max: Bound)
    requires AllParas(cur) && AllParas(ps)
    requires cur != [] ==> |Join(cur, BREAK)| <= max
    ensures SomeOversize(Pack(cur, ps, max), max) <==> BreakOverhangs(cur, ps, max)
    decreases |ps|, |cur|
  {
    if ps != [] {
      var p, rest := ps[0], ps[1..];
      assert IsPara(p);
      if Overflows(cur, p, max) {
        OverhangDecides([], ps, max);
        OversizeAppend(Flushed(cur), Pack([], ps, max), max);
      } else if |p| > max {
        HardPieces(p, max);
        OverhangDecides([], rest, max);
        OversizeAppend(HardSplit(p, max), Pack([], rest, max), max);
      } else {
        if cur != [] {
          JoinSnoc(cur, p, BREAK);
        }
        if Overflows(cur, BREAK + p, max) {
          OversizeStays(cur + [p], rest, max);
        } else {
          OverhangDecides(cur + [p], rest, max);
        }
      }
    }
  }

  /** The documented bound (at most max runes) holds exactly when no break overhangs it. */
  lemma DocumentedBoundIff(s: string, maxRunes: int)
    ensures (forall c | c in Split(s, maxRunes) :: |c| <= EffectiveBound(maxRunes))
            <==> !BreakOverhangs([], Paragraphs(s), EffectiveBound(maxRunes))
  {
    ParagraphsAreParas(s);
    OverhangDecides([], Paragraphs(s), EffectiveBound(maxRunes));
    assert SomeOversize(Split(s, maxRunes), EffectiveBound(maxRunes))
      <==> !forall c | c in Split(s, maxRunes) :: |c| <= EffectiveBound(maxRunes);
  }

  /** The bound max + 2 is reached for every max of at least two. */
  lemma BoundIsTight(max: Bound)
    requires max >= 2
    ensures exists s :: Split(s, max) == [s] && |s| == max + 2
  {
    var a, b := seq(max - 1, _ => 'a'), "b";
    var s := a + BREAK + b;
    assert IsPara(a) && IsPara(b);
    assert Join([a, b], BREAK) == a + BREAK + Join([a, b][1..], BREAK) == s;
    ParagraphsOfJoin([a, b]);
    assert [a, b][1..] == [b] && [b][1..] == [] && [] + [a] == [a] && [a] + [b] == [a, b];
    assert Join([a], BREAK) == a;
    assert Pack([a], [b], max) == Pack([a, b], [], max) == [s];
    assert Pack([], [a, b], max) == Pack([a], [b], max);
    assert Split(s, max) == [s];
  }

  // ---- density and the number of chunks

  ghost predicate DensePair(cs: seq<string>, i: int, max: Bound)
    requires 0 <= i < |cs| - 1
  {
    |cs[i]| + |cs[i + 1]| > max
  }

  /** No two neighbouring pairs are both light. */
  ghost predicate Dense(cs: seq<string>, max: Bound) {
    forall i | 0 <= i < |cs| - 2 :: DensePair(cs, i, max) || DensePair(cs, i + 1, max)
  }

  ghost predicate HeadDense(cs: seq<string>, max: Bound) {
    |cs| >= 2 ==> DensePair(cs, 0, max)
  }

  lemma DenseCons(c: string, cs: seq<string>, max: Bound)
    requires Dense(cs, max)
    requires HeadDense(cs, max) || (cs != [] && |c| + |cs[0]| > max)
    ensures Dense([c] + cs, max)
    ensures cs != [] && |c| + |cs[0]| > max ==> HeadDense([c] + cs, max)
  {
    var r := [c] + cs;
    forall i | 0 <= i < |r| - 2 ensures DensePair(r, i, max) || DensePair(r, i + 1, max) {
      if i > 0 {
        assert DensePair(cs, i - 1, max) || DensePair(cs, i, max);
        assert r[i] == cs[i - 1] && r[i + 1] == cs[i] && r[i + 2] == cs[i + 1];
      } else if HeadDense(cs, max) {
        assert r[1] == cs[0] && r[2] == cs[1];
      }
    }
  }

  lemma {:induction false} DenseHard(s: string, cs: seq<string>, max: Bound)
    requires s != "" && Dense(cs, max) && HeadDense(cs, max) && (forall c | c in cs :: c != "")
    ensures Dense(HardSplit(s, max) + cs, max)
    ensures |s| > max ==> HeadDense(HardSplit(s, max) + cs, max) && |(HardSplit(s, max) + cs)[0]| == max
    ensures forall c | c in HardSplit(s, max) + cs :: c != ""
  {
    if |s| <= max {
      DenseCons(s, cs, max);
    } else {
      var tail := HardSplit(s[max..], max) + cs;
      DenseHard(s[max..], cs, max);
      DenseCons(s[..max], tail, max);
      assert HardSplit(s, max) + cs == [s[..max]] + tail;
    }
  }

  lemma {:induction false} PackIsDense(cur: seq<string>, ps: seq<string>, max: Bound)
    requires AllParas(cur) && AllParas(ps)
    ensures var r := Pack(cur, ps, max);
            && Dense(r, max) && HeadDense(r, max) && (forall c | c in r :: c != "")
            && (cur != [] ==> r != [] && |r[0]| >= |Join(cur, BREAK)|)
            && (ps != [] && cur == [] ==> r != [] && |r[0]| >= if |ps[0]| <= max then |ps[0]| else max)
    decreases |ps|, |cur|
  {
    FlushOfBuffer(cur);
    if ps != [] {
      var p, rest := ps[0], ps[1..];
      assert IsPara(p);
      if Overflows(cur, p, max) {
        PackIsDense([], ps, max);
        DenseCons(Join(cur, BREAK), Pack([], ps, max), max);
      } else if |p| > max {
        PackIsDense([], rest, max);
        DenseHard(p, Pack([], rest, max), max);
      } else {
        PackIsDense(cur + [p], rest, max);
        if cur != [] {
          JoinSnoc(cur, p, BREAK);
        }
      }
    }
  }

  /** Any three consecutive chunks hold more than max runes. */
  lemma ThreeChunksExceedBound(s: string, maxRunes: int, i: nat)
    requires i + 2 < |Split(s, maxRunes)|
    ensures var cs := Split(s, maxRunes);
            |cs[i]| + |cs[i + 1]| + |cs[i + 2]| > EffectiveBound(maxRunes)
  {
    ParagraphsAreParas(s);
    var max, cs := EffectiveBound(maxRunes), Split(s, maxRunes);
    PackIsDense([], Paragraphs(s), max);
    assert DensePair(cs, i, max) || DensePair(cs, i + 1, max);
  }

  lemma {:induction false} DenseTotal(cs: seq<string>, max: Bound)
    requires forall i | 0 <= i < |cs| - 2 :: |cs[i]| + |cs[i + 1]| + |cs[i + 2]| > max
    ensures Total(cs) >= (|cs| / 3) * (max + 1)
    decreases |cs|
  {
    if |cs| >= 3 {
      DenseTotal(cs[3..], max);
      assert cs[1..][1..] == cs[2..] && cs[2..][1..] == cs[3..];
      assert Total(cs[1..]) == |cs[1]| + Total(cs[2..]) && Total(cs[2..]) == |cs[2]| + Total(cs[3..]);
      assert |cs| / 3 == |cs[3..]| / 3 + 1;
      assert (|cs| / 3) * (max + 1) == (|cs[3..]| / 3) * (max + 1) + (max + 1);
    }
  }

  lemma {:induction false} HardSplitTotal(s: string, max: Bound)
    ensures Total(HardSplit(s, max)) == |s|
  {
    if |s| > max {
      HardSplitTotal(s[max..], max);
      assert HardSplit(s, max)[1..] == HardSplit(s[max..], max);
    } else if s != "" {
      assert Total([s]) == |s| + Total([]);
    }
  }

  /** Runes of a paragraph list plus its breaks; zero when there are none. */
  function Span(ps: seq<string>): nat {
    if ps == [] then 0 else Total(ps) + 2 * (|ps| - 1)
  }

  lemma SpanAppend(a: seq<string>, b: seq<string>)
    ensures Span(a) + Span(b) <= Span(a + b)
  {
    TotalAppend(a, b);
    if a == [] {
      assert a + b == b;
    }
  }

  lemma SpanFlushed(cur: seq<string>)
    ensures Total(Flushed(cur)) == Span(cur)
  {
    if cur != [] {
      JoinLength(cur);
      assert Total([Join(cur, BREAK)]) == |Join(cur, BREAK)| + Total([]);
    }
  }

  lemma {:induction false} PackTotal(cur: seq<string>, ps: seq<string>, max: Bound)
    requires AllParas(cur) && AllParas(ps)
    ensures Total(Pack(cur, ps, max)) <= Span(cur + ps)
    decreases |ps|, |cur|
  {
    SpanFlushed(cur);
    if ps == [] {
      assert cur + ps == cur;
    } else if Overflows(cur, ps[0], max) {
      PackTotal([], ps, max);
      assert [] + ps == ps;
      TotalAppend(Flushed(cur), Pack([], ps, max));
      SpanAppend(cur, ps);
    } else if |ps[0]| > max {
      PackTotal([], ps[1..], max);
      assert [] + ps[1..] == ps[1..];
      HardSplitTotal(ps[0], max);
      TotalAppend(HardSplit(ps[0], max), Pack([], ps[1..], max));
      SpanAppend([ps[0]], ps[1..]);
      assert Total([ps[0]]) == |ps[0]| + Total([]);
      assert cur == [] && cur + ps == [ps[0]] + ps[1..];
    } else {
      assert IsPara(ps[0]);
      PackTotal(cur + [ps[0]], ps[1..], max);
      assert cur + [ps[0]] + ps[1..] == cur + ps;
    }
  }

  lemma ProductStep(a: nat, b: nat, d: nat)
    ensures a > b ==> a * d >= b * d + d
  {
    if a > b {
      assert a * d == (b + 1) * d + (a - b - 1) * d;
    }
  }

  lemma QuotientBound(k: nat, n: nat, d: nat)
    requires d > 0 && (k / 3) * d <= n
    ensures k <= 3 * (n / d) + 2
  {
    ProductStep(k / 3, n / d, d);
    assert n == (n / d) * d + n % d;
  }

  lemma ChunksFitInText(s: string, maxRunes: int)
    ensures Total(Split(s, maxRunes)) <= |s|
  {
    var ps := Paragraphs(s);
    ParagraphsAreParas(s);
    PackTotal([], ps, EffectiveBound(maxRunes));
    assert [] + ps == ps;
    ParagraphsLength(s);
    if ps != [] {
      JoinLength(ps);
    }
  }

  /** n runes give at most 3 * floor(n / (max + 1)) + 2 chunks. */
  lemma ChunkCount(s: string, maxRunes: int)
    ensures |Split(s, maxRunes)| <= 3 * (|s| / (EffectiveBound(maxRunes) + 1)) + 2
  {
    var cs := Split(s, maxRunes);
    forall i: int | 0 <= i < |cs| - 2
      ensures |cs[i]| + |cs[i + 1]| + |cs[i + 2]| > EffectiveBound(maxRunes)
    {
      ThreeChunksExceedBound(s, maxRunes, i);
    }
    DenseTotal(cs, EffectiveBound(maxRunes));
    ChunksFitInText(s, maxRunes);
    QuotientBound(|cs|, |s|, EffectiveBound(maxRunes) + 1);
  }

  // ---- splitting a stored chunk again

  lemma NextFits(pre: seq<string>, post: seq<string>, max: Bound)
    requires Fits(pre + post, max) && post != []
    ensures |post[0]| <= max && !Overflows(pre, post[0], max)
  {
    var g := pre + post;
    assert post[0] == g[|pre|] && g[..|pre|] == pre;
  }

  lemma {:induction false} PackOfFits(pre: seq<string>, post: seq<string>, max: Bound)
    requires Fits(pre + post, max) && pre + post != []
    ensures Pack(pre, post, max) == [Join(pre + post, BREAK)]
    decreases |post|
  {
    if post == [] {
      assert pre + post == pre;
    } else {
      var p := post[0];
      NextFits(pre, post, max);
      Shift(pre, post);
      PackOfFits(pre + [p], post[1..], max);
    }
  }

  /** The text of a stored row: a non-blank piece, trimmed. Splitting it again gives it back. */
  lemma ResplitFixedPoint(s: string, maxRunes: int, c: string)
    requires c in Split(s, maxRunes) && TrimSpace(c) != ""
    ensures Split(TrimSpace(c), maxRunes) == [TrimSpace(c)]
  {
    var max := EffectiveBound(maxRunes);
    ParagraphsAreParas(s);
    PackIsWellMade([], Paragraphs(s), max);
    TrimFacts(c);
    var t := TrimSpace(c);
    if IsPacked(c, max) {
      var g :| Fits(g, max) && g != [] && c == Join(g, BREAK);
      FlushOfBuffer(g);
      ParagraphsOfJoin(g);
      assert [] + g == g;
      PackOfFits([], g, max);
    } else {
      TrimFacts(t);
      SplitNoBreak(t);
      assert Clean([t]) == [t] + Clean([t][1..]) == [t];
      assert Fits([t], max);
      assert [] + [t] == [t];
      PackOfFits([], [t], max);
    }
  }

  /** When no paragraph is over-long, the chunks carry the paragraphs unbroken and in order. */
  lemma ParagraphsSurvive(s: string, maxRunes: int)
    requires forall p | p in Paragraphs(s) :: |p| <= EffectiveBound(maxRunes)
    ensures AllParagraphs(Split(s, maxRunes)) == Paragraphs(s)
  {
    ParagraphsAreParas(s);
    PackKeepsParagraphs([], Paragraphs(s), EffectiveBound(maxRunes));
    assert [] + Paragraphs(s) == Paragraphs(s);
  }

  lemma AllParagraphsCons(c: string, cs: seq<string>)
    ensures AllParagraphs([c] + cs) == Paragraphs(c) + AllParagraphs(cs)
  {
    assert ([c] + cs)[1..] == cs;
  }

  lemma ParagraphsOfFlushed(cur: seq<string>)
    requires AllParas(cur)
    ensures AllParagraphs(Flushed(cur)) == cur
  {
    ParagraphsOfJoin(cur);
    if cur != [] {
      AllParagraphsCons(Join(cur, BREAK), []);
      assert [Join(cur, BREAK)] + [] == [Join(cur, BREAK)];
    }
  }

  predicate NoneLonger(ps: seq<string>, max: Bound) {
    forall p | p in ps :: |p| <= max
  }

  lemma MoveOne(cur: seq<string>, ps: seq<string>, max: Bound)
    requires ps != [] && AllParas(cur) && AllParas(ps) && NoneLonger(ps, max)
    ensures AllParas(cur + [ps[0]]) && AllParas(ps[1..]) && NoneLonger(ps[1..], max) && |ps[0]| <= max
  {}

  lemma {:induction false} PackKeepsParagraphs(cur: seq<string>, ps: seq<string>, max: Bound)
    requires AllParas(cur) && AllParas(ps) && NoneLonger(ps, max)
    ensures AllParagraphs(Pack(cur, ps, max)) == cur + ps
    decreases |ps|, |cur|
  {
    if ps == [] {
      ParagraphsOfFlushed(cur);
      assert cur + ps == cur;
    } else if Overflows(cur, ps[0], max) {
      PackKeepsParagraphs([], ps, max);
      AllParagraphsCons(Join(cur, BREAK), Pack([], ps, max));
      ParagraphsOfJoin(cur);
      assert [] + ps == ps;
    } else {
      MoveOne(cur, ps, max);
      PackKeepsParagraphs(cur + [ps[0]], ps[1..], max);
      Shift(cur, ps);
    }
  }

  lemma Shift(cur: seq<string>, ps: seq<string>)
    requires ps != []
    ensures cur + [ps[0]] + ps[1..] == cur + ps
  {}
}
