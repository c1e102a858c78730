/** Text as a sequence of valid runes: white space, trimming and paragraphs. */
module Text {

  /** The runes Go's unicode.IsSpace accepts (the White_Space property). */
  predicate IsSpace(c: char) {
    var n := c as int;
    || 0x09 <= n <= 0x0D || n == 0x20 || n == 0x85 || n == 0xA0
    || n == 0x1680 || 0x2000 <= n <= 0x200A
    || n == 0x2028 || n == 0x2029 || n == 0x202F || n == 0x205F || n == 0x3000
  }

  predicate Trimmed(s: string) {
    s == "" || (!IsSpace(s[0]) && !IsSpace(s[|s| - 1]))
  }

  function TrimLeft(s: string): string {
    if s != "" && IsSpace(s[0]) then TrimLeft(s[1..]) else s
  }

  function TrimRight(s: string): string {
    if s != "" && IsSpace(s[|s| - 1]) then TrimRight(s[..|s| - 1]) else s
  }

  function TrimSpace(s: string): string {
    TrimRight(TrimLeft(s))
  }

  /** The text with every white-space rune deleted. */
  function Squeeze(s: string): string {
    if s == "" then "" else (if IsSpace(s[0]) then "" else [s[0]]) + Squeeze(s[1..])
  }

  function Concat(parts: seq<string>): string {
    if parts == [] then "" else parts[0] + Concat(parts[1..])
  }

  function Join(parts: seq<string>, sep: string): string {
    if parts == [] then ""
    else if |parts| == 1 then parts[0]
    else parts[0] + sep + Join(parts[1..], sep)
  }

  const BREAK := "\n\n"

  /** strings.Split(s, "\n\n"): leftmost, non-overlapping breaks. */
  function SplitParas(s: string): (ps: seq<string>)
    ensures ps != []
  {
    if |s| < 2 then [s]
    else if s[..2] == BREAK then [""] + SplitParas(s[2..])
    else
      var rest := SplitParas(s[1..]);
      [[s[0]] + rest[0]] + rest[1..]
  }

  /** Each piece trimmed, blank ones dropped. */
  function Clean(pieces: seq<string>): seq<string> {
    if pieces == [] then []
    else
      var p := TrimSpace(pieces[0]);
      (if p == "" then [] else [p]) + Clean(pieces[1..])
  }

  /** The paragraphs of a text, as the chunker sees them. */
  function Paragraphs(s: string): seq<string> {
    Clean(SplitParas(TrimSpace(s)))
  }

  predicate NoBreak(s: string) {
    forall i | 0 <= i < |s| - 1 :: s[i] == '\n' ==> s[i + 1] != '\n'
  }

  predicate IsPara(p: string) {
    p != "" && Trimmed(p) && NoBreak(p)
  }

  predicate AllParas(ps: seq<string>) {
    forall p | p in ps :: IsPara(p)
  }

  // ---- trimming and squeezing

  lemma {:induction false} SqueezeAppend(a: string, b: string)
    ensures Squeeze(a + b) == Squeeze(a) + Squeeze(b)
  {
    if a == "" {
      assert a + b == b;
    } else {
      var s := a + b;
      assert s[0] == a[0] && s[1..] == a[1..] + b;
      SqueezeAppend(a[1..], b);
      var head := if IsSpace(a[0]) then "" else [a[0]];
      calc {
        Squeeze(s);
        head + Squeeze(s[1..]);
        head + (Squeeze(a[1..]) + Squeeze(b));
        (head + Squeeze(a[1..])) + Squeeze(b);
      }
    }
  }

  lemma {:induction false} TrimLeftFacts(s: string)
    ensures var t := TrimLeft(s); |t| <= |s| && (t == "" || !IsSpace(t[0]))
    ensures NoBreak(s) ==> NoBreak(TrimLeft(s))
    ensures Squeeze(TrimLeft(s)) == Squeeze(s)
  {
    if s != "" && IsSpace(s[0]) {
      TrimLeftFacts(s[1..]);
      if NoBreak(s) {
        assert forall i | 0 <= i < |s[1..]| :: s[1..][i] == s[i + 1];
      }
    }
  }

  lemma {:induction false} TrimRightFacts(s: string)
    ensures var t := TrimRight(s); |t| <= |s| && t == s[..|t|] && (t == "" || !IsSpace(t[|t| - 1]))
    ensures Squeeze(TrimRight(s)) == Squeeze(s)
  {
    if s != "" && IsSpace(s[|s| - 1]) {
      var init, last := s[..|s| - 1], [s[|s| - 1]];
      TrimRightFacts(init);
      SqueezeAppend(init, last);
      assert init + last == s;
      assert Squeeze(last) == Squeeze(last[1..]) == "";
    } else {
      assert s == s[..|s|];
    }
  }

  /** Trimming yields a trimmed text, deletes only white space and never creates a break. */
  lemma TrimFacts(s: string)
    ensures Trimmed(TrimSpace(s))
    ensures |TrimSpace(s)| <= |s|
    ensures Squeeze(TrimSpace(s)) == Squeeze(s)
    ensures Trimmed(s) ==> TrimSpace(s) == s
    ensures NoBreak(s) ==> NoBreak(TrimSpace(s))
  {
    TrimLeftFacts(s);
    TrimRightFacts(TrimLeft(s));
  }

  lemma {:induction false} TrimLeftWindow(s: string) returns (i: nat)
    ensures i <= |s| && TrimLeft(s) == s[i..] && forall k | 0 <= k < i :: IsSpace(s[k])
  {
    if s != "" && IsSpace(s[0]) {
      i := TrimLeftWindow(s[1..]);
      i := i + 1;
    } else {
      i := 0;
    }
  }

  lemma {:induction false} TrimRightWindow(s: string) returns (j: nat)
    ensures j <= |s| && TrimRight(s) == s[..j] && forall k | j <= k < |s| :: IsSpace(s[k])
  {
    if s != "" && IsSpace(s[|s| - 1]) {
      j := TrimRightWindow(s[..|s| - 1]);
      assert s[..|s| - 1][..j] == s[..j];
    } else {
      j := |s|;
    }
  }

  /** Trimming keeps one window of the text and drops only white space around it. */
  lemma TrimIsWindow(s: string) returns (i: nat, j: nat)
    ensures i <= j <= |s| && TrimSpace(s) == s[i..j]
    ensures forall k | 0 <= k < i || j <= k < |s| :: IsSpace(s[k])
  {
    i := TrimLeftWindow(s);
    var n := TrimRightWindow(s[i..]);
    j := i + n;
    forall k | j <= k < |s| ensures IsSpace(s[k]) {
      assert s[i..][k - i] == s[k];
    }
  }

  // ---- splitting and joining

  /** Splitting at breaks loses nothing: joined again, the pieces are the text. */
  lemma {:induction false} JoinOfSplit(s: string)
    ensures Join(SplitParas(s), BREAK) == s
  {
    if |s| >= 2 {
      if s[..2] == BREAK {
        JoinOfSplit(s[2..]);
        JoinCons("", SplitParas(s[2..]));
        assert s == BREAK + s[2..];
      } else {
        JoinOfSplit(s[1..]);
        JoinPush(s[0], SplitParas(s[1..]));
        assert s == [s[0]] + s[1..];
      }
    }
  }

  lemma JoinCons(p: string, ps: seq<string>)
    requires ps != []
    ensures Join([p] + ps, BREAK) == p + BREAK + Join(ps, BREAK)
  {
    assert ([p] + ps)[1..] == ps;
  }

  lemma JoinPush(c: char, ps: seq<string>)
    requires ps != []
    ensures Join([[c] + ps[0]] + ps[1..], BREAK) == [c] + Join(ps, BREAK)
  {
    assert ([[c] + ps[0]] + ps[1..])[1..] == ps[1..];
  }

  lemma {:induction false} FirstPieceIsPrefix(s: string)
    ensures SplitParas(s)[0] <= s
  {
    if |s| >= 2 && s[..2] != BREAK {
      FirstPieceIsPrefix(s[1..]);
      assert s == [s[0]] + s[1..];
    }
  }

  lemma ConsNoBreak(c: char, t: string)
    requires NoBreak(t)
    requires c == '\n' && t != "" ==> t[0] != '\n'
    ensures NoBreak([c] + t)
  {
    forall i | 0 <= i < |t| && ([c] + t)[i] == '\n' ensures ([c] + t)[i + 1] != '\n' {
      assert i > 0 ==> ([c] + t)[i] == t[i - 1];
    }
  }

  lemma {:induction false} SplitPiecesHaveNoBreak(s: string)
    ensures forall p | p in SplitParas(s) :: NoBreak(p)
  {
    if |s| < 2 {
    } else if s[..2] == BREAK {
      SplitPiecesHaveNoBreak(s[2..]);
    } else {
      SplitPiecesHaveNoBreak(s[1..]);
      FirstPieceIsPrefix(s[1..]);
      var rest := SplitParas(s[1..]);
      assert NoBreak(rest[0]) && rest[0] <= s[1..];
      if s[0] == '\n' && rest[0] != "" {
        assert rest[0][0] == s[1];
        assert s[..2] == [s[0], s[1]];
      }
      ConsNoBreak(s[0], rest[0]);
    }
  }

  lemma {:induction false} SplitNoBreak(s: string)
    requires NoBreak(s)
    ensures SplitParas(s) == [s]
  {
    if |s| >= 2 {
      assert s[..2][0] == s[0] && s[..2][1] == s[1];
      forall i | 0 <= i < |s[1..]| - 1 ensures s[1..][i] == '\n' ==> s[1..][i + 1] != '\n' {
        assert s[1..][i] == s[i + 1] && s[1..][i + 1] == s[i + 2];
      }
      SplitNoBreak(s[1..]);
      assert [s[0]] + s[1..] == s;
    }
  }

  lemma SplitAtBreak(t: string)
    ensures SplitParas(BREAK + t) == [""] + SplitParas(t)
  {
    assert (BREAK + t)[..2] == BREAK && (BREAK + t)[2..] == t;
  }

  lemma SplitCons(c: char, t: string)
    requires c == '\n' && t != "" ==> t[0] != '\n'
    ensures SplitParas([c] + t) == [[c] + SplitParas(t)[0]] + SplitParas(t)[1..]
  {
    var s := [c] + t;
    if t == "" {
      assert SplitParas(t) == [""] && [c] + "" == s;
    } else {
      assert s[..2] == [c, t[0]] && s[1..] == t;
    }
  }

  lemma ConsOfAppend(c: char, x: seq<string>, y: seq<string>)
    requires x != []
    ensures [[c] + (x + y)[0]] + (x + y)[1..] == [[c] + x[0]] + x[1..] + y
  {}

  /** Putting one rune, or one break, in front of two texts that split apart. */
  lemma SplitConsAppend(c: char, t: string, b: string)
    requires c == '\n' ==> t != "" && t[0] != '\n'
    requires SplitParas(t + BREAK + b) == SplitParas(t) + SplitParas(b)
    ensures SplitParas([c] + (t + BREAK + b)) == SplitParas([c] + t) + SplitParas(b)
  {
    SplitCons(c, t);
    SplitCons(c, t + BREAK + b);
    ConsOfAppend(c, SplitParas(t), SplitParas(b));
  }

  lemma SplitBreakAppend(t: string, b: string)
    requires SplitParas(t + BREAK + b) == SplitParas(t) + SplitParas(b)
    ensures SplitParas(BREAK + (t + BREAK + b)) == SplitParas(BREAK + t) + SplitParas(b)
  {
    SplitAtBreak(t);
    SplitAtBreak(t + BREAK + b);
    Regroup([""], SplitParas(t), SplitParas(b), []);
  }

  predicate StartsWithBreak(s: string) {
    |s| >= 2 && s[0] == '\n' && s[1] == '\n'
  }

  lemma Regroup<T>(x: seq<T>, y: seq<T>, z: seq<T>, w: seq<T>)
    ensures (x + y) + z + w == x + (y + z + w)
  {}

  /** A break after text that does not end in a newline is exactly where the split happens. */
  lemma {:induction false} SplitAppend(a: string, b: string)
    requires a == "" || a[|a| - 1] != '\n'
    ensures SplitParas(a + BREAK + b) == SplitParas(a) + SplitParas(b)
    decreases |a|
  {
    if a == "" {
      SplitAtBreak(b);
      assert a + BREAK == BREAK;
    } else if StartsWithBreak(a) {
      assert a == BREAK + a[2..];
      SplitAppend(a[2..], b);
      SplitBreakAppend(a[2..], b);
      Regroup(BREAK, a[2..], BREAK, b);
    } else {
      assert a == [a[0]] + a[1..];
      SplitAppend(a[1..], b);
      SplitConsAppend(a[0], a[1..], b);
      Regroup([a[0]], a[1..], BREAK, b);
    }
  }

  lemma {:induction false} JoinSnoc(ps: seq<string>, p: string, sep: string)
    requires ps != []
    ensures Join(ps + [p], sep) == Join(ps, sep) + sep + p
  {
    if |ps| == 1 {
      assert (ps + [p])[1..] == [p];
    } else {
      assert (ps + [p])[1..] == ps[1..] + [p];
      JoinSnoc(ps[1..], p, sep);
      assert Join(ps + [p], sep) == ps[0] + sep + (Join(ps[1..], sep) + sep + p);
    }
  }

  lemma {:induction false} CleanAppend(a: seq<string>, b: seq<string>)
    ensures Clean(a + b) == Clean(a) + Clean(b)
  {
    if a == [] {
      assert a + b == b;
    } else {
      assert (a + b)[1..] == a[1..] + b;
      CleanAppend(a[1..], b);
    }
  }

  lemma {:induction false} CleanGivesParas(ps: seq<string>)
    requires forall p | p in ps :: NoBreak(p)
    ensures AllParas(Clean(ps))
  {
    if ps != [] {
      TrimFacts(ps[0]);
      CleanGivesParas(ps[1..]);
    }
  }

  lemma ParagraphsAreParas(s: string)
    ensures AllParas(Paragraphs(s))
  {
    SplitPiecesHaveNoBreak(TrimSpace(s));
    CleanGivesParas(SplitParas(TrimSpace(s)));
  }

  lemma {:induction false} JoinOfParas(ps: seq<string>)
    requires AllParas(ps) && ps != []
    ensures Trimmed(Join(ps, BREAK)) && Join(ps, BREAK) != ""
    ensures SplitParas(Join(ps, BREAK)) == ps
    ensures Clean(ps) == ps
    ensures Join(ps, BREAK)[0] == ps[0][0]
  {
    assert IsPara(ps[0]);
    TrimFacts(ps[0]);
    SplitNoBreak(ps[0]);
    if |ps| > 1 {
      JoinOfParas(ps[1..]);
      var rest := Join(ps[1..], BREAK);
      assert Join(ps, BREAK) == ps[0] + BREAK + rest;
      assert Join(ps, BREAK)[|Join(ps, BREAK)| - 1] == rest[|rest| - 1];
      SplitAppend(ps[0], rest);
    }
  }

  /** Trimmed, non-blank texts joined with breaks: their paragraphs, in order. */
  lemma {:induction false} ParagraphsOfJoined(qs: seq<string>)
    requires forall q | q in qs :: q != "" && Trimmed(q)
    ensures Paragraphs(Join(qs, BREAK)) == AllParagraphs(qs)
    ensures Trimmed(Join(qs, BREAK)) && (qs != [] ==> Join(qs, BREAK) != "")
  {
    if qs == [] {
      NoParagraphs();
    } else if |qs| == 1 {
      assert qs[0] in qs;
      assert AllParagraphs(qs) == Paragraphs(qs[0]) + AllParagraphs([]) == Paragraphs(qs[0]);
    } else {
      assert qs[0] in qs && forall q | q in qs[1..] :: q in qs;
      ParagraphsOfJoined(qs[1..]);
      ParagraphsAppend(qs[0], Join(qs[1..], BREAK));
    }
  }

  function AllParagraphs(texts: seq<string>): seq<string> {
    if texts == [] then [] else Paragraphs(texts[0]) + AllParagraphs(texts[1..])
  }

  lemma NoParagraphs()
    ensures Paragraphs("") == []
  {
    assert SplitParas("") == [""] && Clean([""]) == Clean([""][1..]) == [];
  }

  /** Cleaning the parts first changes no paragraph. */
  lemma {:induction false} AllParagraphsOfClean(parts: seq<string>)
    ensures AllParagraphs(Clean(parts)) == AllParagraphs(parts)
    ensures forall q | q in Clean(parts) :: q != "" && Trimmed(q)
  {
    if parts != [] {
      AllParagraphsOfClean(parts[1..]);
      var p, rest := TrimSpace(parts[0]), Clean(parts[1..]);
      TrimFacts(parts[0]);
      TrimFacts(p);
      assert Paragraphs(p) == Paragraphs(parts[0]);
      if p == "" {
        NoParagraphs();
        assert Clean(parts) == rest;
      } else {
        assert Clean(parts) == [p] + rest && ([p] + rest)[1..] == rest;
      }
    }
  }

  /** Joining paragraphs and splitting again gives the same paragraphs. */
  lemma ParagraphsOfJoin(ps: seq<string>)
    requires AllParas(ps)
    ensures Paragraphs(Join(ps, BREAK)) == ps
  {
    if ps == [] {
      NoParagraphs();
    } else {
      JoinOfParas(ps);
      TrimFacts(Join(ps, BREAK));
    }
  }

  /** The paragraphs of two trimmed texts put together with a break. */
  lemma ParagraphsAppend(a: string, b: string)
    requires a != "" && Trimmed(a) && b != "" && Trimmed(b)
    ensures Trimmed(a + BREAK + b)
    ensures Paragraphs(a + BREAK + b) == Paragraphs(a) + Paragraphs(b)
  {
    TrimFacts(a);
    TrimFacts(b);
    assert (a + BREAK + b)[|a + BREAK + b| - 1] == b[|b| - 1];
    TrimFacts(a + BREAK + b);
    SplitAppend(a, b);
    CleanAppend(SplitParas(a), SplitParas(b));
  }

  lemma {:induction false} SqueezeClean(ps: seq<string>)
    ensures Squeeze(Concat(Clean(ps))) == Squeeze(Concat(ps))
  {
    if ps != [] {
      SqueezeClean(ps[1..]);
      TrimFacts(ps[0]);
      SqueezeAppend(ps[0], Concat(ps[1..]));
      var p, rest := TrimSpace(ps[0]), Clean(ps[1..]);
      SqueezeAppend(p, Concat(rest));
      if p == "" {
        assert Clean(ps) == rest;
      } else {
        assert Clean(ps)[1..] == rest;
      }
    }
  }

  lemma {:induction false} SqueezeSplit(s: string)
    ensures Squeeze(Concat(SplitParas(s))) == Squeeze(s)
  {
    var ps := SplitParas(s);
    if |s| < 2 {
      assert Concat(ps) == s + Concat([]) == s;
    } else if s[..2] == BREAK {
      SqueezeSplit(s[2..]);
      assert ps[1..] == SplitParas(s[2..]);
      assert s == s[..2] + s[2..];
      SqueezeAppend(s[..2], s[2..]);
      assert IsSpace('\n');
      assert Squeeze(BREAK[1..]) == Squeeze(BREAK[1..][1..]);
      assert Concat(ps) == "" + Concat(ps[1..]) == Concat(ps[1..]);
    } else {
      SqueezeSplit(s[1..]);
      var rest := SplitParas(s[1..]);
      assert ps[1..] == rest[1..];
      assert Concat(ps) == [s[0]] + Concat(rest);
      SqueezeAppend([s[0]], Concat(rest));
      SqueezeAppend([s[0]], s[1..]);
      assert [s[0]] + s[1..] == s;
    }
  }

  lemma SqueezeParagraphs(s: string)
    ensures Squeeze(Concat(Paragraphs(s))) == Squeeze(s)
  {
    TrimFacts(s);
    SqueezeSplit(TrimSpace(s));
    SqueezeClean(SplitParas(TrimSpace(s)));
  }

  // ---- lengths

  function Total(parts: seq<string>): nat {
    if parts == [] then 0 else |parts[0]| + Total(parts[1..])
  }

  lemma {:induction false} TotalAppend(a: seq<string>, b: seq<string>)
    ensures Total(a + b) == Total(a) + Total(b)
  {
    if a == [] {
      assert a + b == b;
    } else {
      assert (a + b)[1..] == a[1..] + b;
      TotalAppend(a[1..], b);
    }
  }

  /** Runes of the parts plus the breaks between them. */
  lemma {:induction false} JoinLength(ps: seq<string>)
    requires ps != []
    ensures |Join(ps, BREAK)| == Total(ps) + 2 * (|ps| - 1)
  {
    if |ps| == 1 {
      assert Total(ps) == |ps[0]| + Total([]);
    } else {
      JoinLength(ps[1..]);
    }
  }

  lemma {:induction false} SplitLength(s: string)
    ensures Total(SplitParas(s)) + 2 * (|SplitParas(s)| - 1) == |s|
  {
    if |s| < 2 {
      assert Total([s]) == |s| + Total([]);
    } else if s[..2] == BREAK {
      SplitLength(s[2..]);
      assert SplitParas(s)[1..] == SplitParas(s[2..]);
    } else {
      SplitLength(s[1..]);
      assert SplitParas(s)[1..] == SplitParas(s[1..])[1..];
    }
  }

  lemma {:induction false} CleanShrinks(ps: seq<string>)
    ensures Total(Clean(ps)) <= Total(ps) && |Clean(ps)| <= |ps|
  {
    if ps != [] {
      CleanShrinks(ps[1..]);
      TrimFacts(ps[0]);
      var p := TrimSpace(ps[0]);
      assert Clean(ps) == (if p == "" then [] else [p]) + Clean(ps[1..]);
      TotalAppend(if p == "" then [] else [p], Clean(ps[1..]));
      assert Total([p]) == |p| + Total([]);
    }
  }

  lemma ParagraphsLength(s: string)
    ensures |Join(Paragraphs(s), BREAK)| <= |s|
  {
    TrimFacts(s);
    SplitLength(TrimSpace(s));
    CleanShrinks(SplitParas(TrimSpace(s)));
    if Paragraphs(s) != [] {
      JoinLength(Paragraphs(s));
    }
  }
}
