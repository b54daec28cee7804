/**
  The skills field of the resume wizard. The text box shows the draft's
  skills joined with ", "; every edit replaces the skills with the input
  split at commas, each piece trimmed, and the empty pieces dropped.
 */
module Skills {
  import opened Strings

  const Comma: char := ','
  const Separator: string := ", "

  /** A skill as the parser can produce it: non-empty, trimmed, comma-free. */
  predicate IsSkill(x: string) {
    x != [] && IsTrimmed(x) && Comma !in x
  }

  predicate WellFormed(xs: seq<string>) {
    forall i :: 0 <= i < |xs| ==> IsSkill(xs[i])
  }

  /** Characters that leave nothing behind once the input is parsed. */
  predicate Blank(s: string) {
    forall i :: 0 <= i < |s| ==> s[i] == Comma || IsWs(s[i])
  }

  /** What one comma-separated piece contributes once trimmed and filtered:
      its trimmed text, or nothing when the piece is only whitespace. */
  function Keep(piece: string): (r: seq<string>)
    ensures r == [] <==> AllWs(piece)
    ensures !AllWs(piece) ==> r == [Trim(piece)]
    ensures Comma !in piece ==> WellFormed(r)
  {
    TrimEmptyIff(piece);
    TrimKeepsAbsent(piece, Comma);
    var t := Trim(piece);
    if t == [] then [] else [t]
  }

  /** Trims every piece and drops the empty ones, keeping their order. */
  function Clean(pieces: seq<string>): (r: seq<string>)
    ensures |r| <= |pieces|
    ensures (forall j :: 0 <= j < |pieces| ==> Comma !in pieces[j]) ==> WellFormed(r)
  {
    if pieces == [] then [] else
      var head, tail := Keep(pieces[0]), Clean(pieces[1..]);
      WellFormedAppend(head, tail);
      head + tail
  }

  lemma {:induction false} WellFormedAppend(a: seq<string>, b: seq<string>)
    ensures WellFormed(a) && WellFormed(b) ==> WellFormed(a + b)
  {
    if WellFormed(a) && WellFormed(b) {
      forall i | 0 <= i < |a + b| ensures IsSkill((a + b)[i]) {
        if i >= |a| {
          assert (a + b)[i] == b[i - |a|];
        }
      }
    }
  }

  /** The skills an input string sets: split at every comma, trim each
      piece, drop the pieces that are left empty. */
  function Parse(input: string): (r: seq<string>)
    ensures WellFormed(r)
  {
    Clean(Split(input, Comma))
  }

  /** The text the skills input shows: the skills joined with a comma and a space. */
  function Format(skills: seq<string>): (r: string)
    ensures skills != [] ==> skills[0] <= r
    ensures WellFormed(skills) ==> (r == [] <==> skills == [])
  {
    Join(skills, Separator)
  }

  /* -------------------------------------------------------------- lemmas */

  lemma {:induction false} CleanCons(p: string, ps: seq<string>)
    ensures Clean([p] + ps) == Keep(p) + Clean(ps)
  {
    assert ([p] + ps)[1..] == ps;
  }

  lemma {:induction false} CleanAppend(x: seq<string>, y: seq<string>)
    ensures Clean(x + y) == Clean(x) + Clean(y)
    decreases |x|
  {
    if x == [] {
      assert x + y == y;
    } else {
      AppendHeadTail(x, y);
      CleanCons(x[0], x[1..] + y);
      CleanAppend(x[1..], y);
      HeadTail(x);
      CleanCons(x[0], x[1..]);
      ConcatAssoc3(Keep(x[0]), Clean(x[1..]), Clean(y));
    }
  }

  /** Input without a comma is one piece. */
  lemma {:induction false} ParseSingle(s: string)
    requires Comma !in s
    ensures Parse(s) == Keep(s)
  {
    SplitNoSeparator(s, Comma);
    CleanCons(s, []);
  }

  /** Parsing distributes over a comma: the skills of `a,b` are the skills of
      `a` followed by the skills of `b`, so the input's order is kept. */
  lemma {:induction false} ParseAppend(a: string, b: string)
    ensures Parse(a + [Comma] + b) == Parse(a) + Parse(b)
  {
    SplitAppend(a, b, Comma);
    CleanAppend(Split(a, Comma), Split(b, Comma));
  }

  /** Whitespace in front of the input does not change the skills. */
  lemma {:induction false} ParseIgnoresLeadingWs(w: string, s: string)
    requires AllWs(w)
    ensures Parse(w + s) == Parse(s)
  {
    AllWsExcludes(w, Comma);
    var ps := Split(s, Comma);
    SplitPrefix(w, s, Comma);
    CleanCons(w + ps[0], ps[1..]);
    TrimIgnoresLeadingWs(w, ps[0]);
    HeadTail(ps);
    CleanCons(ps[0], ps[1..]);
  }

  /** All-whitespace input sets no skills. */
  lemma {:induction false} ParseOfWs(s: string)
    requires AllWs(s)
    ensures Parse(s) == []
  {
    AllWsExcludes(s, Comma);
    ParseSingle(s);
  }

  lemma {:induction false} BlankAt(s: string, k: nat)
    requires k < |s| && s[k] == Comma
    ensures s == s[..k] + [Comma] + s[k + 1..]
    ensures Blank(s) <==> Blank(s[..k]) && Blank(s[k + 1..])
  {
    assert s == s[..k] + [Comma] + s[k + 1..];
    if Blank(s[..k]) && Blank(s[k + 1..]) {
      forall i | 0 <= i < |s| ensures s[i] == Comma || IsWs(s[i]) {
        if i < k {
          assert s[i] == s[..k][i];
        } else if i > k {
          assert s[i] == s[k + 1..][i - k - 1];
        }
      }
    }
  }

  lemma {:induction false} BlankWithoutComma(s: string)
    requires Comma !in s
    ensures Blank(s) <==> AllWs(s)
  {
    AllWsIndex(s);
    if Blank(s) {
      forall i | 0 <= i < |s| ensures IsWs(s[i]) {
        assert s[i] in s;
      }
    }
  }

  /** An input sets no skills exactly when it holds nothing but commas and
      whitespace; in particular `""` parses to no skills. */
  lemma {:induction false} ParseEmptyIff(s: string)
    ensures Parse(s) == [] <==> Blank(s)
    decreases |s|, 1
  {
    if Comma in s {
      var k :| 0 <= k < |s| && s[k] == Comma;
      ParseEmptyIffAt(s, k);
    } else {
      ParseSingle(s);
      BlankWithoutComma(s);
    }
  }

  /** The step of ParseEmptyIff at a comma: both sides of it must be blank. */
  lemma {:induction false} ParseEmptyIffAt(s: string, k: nat)
    requires k < |s| && s[k] == Comma
    ensures Parse(s) == [] <==> Blank(s)
    decreases |s|, 0
  {
    var a, b := s[..k], s[k + 1..];
    BlankAt(s, k);
    ParseAppend(a, b);
    ParseEmptyIff(a);
    ParseEmptyIff(b);
    EmptyConcat(Parse(a), Parse(b));
  }

  lemma {:induction false} EmptyConcat<T>(a: seq<T>, b: seq<T>)
    ensures a + b == [] <==> a == [] && b == []
  {
    assert |a + b| == |a| + |b|;
  }

  /** A trailing separator, even followed by whitespace, adds nothing:
      `Parse("a, ") == Parse("a")`. */
  lemma {:induction false} ParseDropsTrailingSeparator(s: string, w: string)
    requires AllWs(w)
    ensures Parse(s + [Comma] + w) == Parse(s)
  {
    ParseAppend(s, w);
    ParseOfWs(w);
    assert Parse(s) + [] == Parse(s);
  }

  /** A comma at the very end adds nothing. */
  lemma {:induction false} ParseDropsSeparatorAtEnd(s: string)
    ensures Parse(s + [Comma]) == Parse(s)
  {
    ParseDropsTrailingSeparator(s, []);
    assert s + [Comma] + [] == s + [Comma];
  }


  /** Appending `", " + x` for a skill `x` appends `x` to the skills. */
  lemma {:induction false} ParseAddsSkill(s: string, x: string)
    requires IsSkill(x)
    ensures Parse(s + ", " + x) == Parse(s) + [x]
  {
    SeparatorBeforeSkill(s, x);
    ParseAppend(s, [' '] + x);
    ParseAfterSpace(x);
    ParseSkill(x);
  }


  /** `s + ", " + x` regrouped as the input before the comma and after it. */
  lemma {:induction false} SeparatorBeforeSkill(s: string, x: string)
    ensures s + ", " + x == s + [Comma] + ([' '] + x)
  {
  }

  /** A doubled separator counts as a single one. */
  lemma {:induction false} ParseDropsEmptySegment(a: string, b: string)
    ensures Parse(a + [Comma, Comma] + b) == Parse(a + [Comma] + b)
  {
    DoubledSeparator(a, b);
    ParseAppend(a, [Comma] + b);
    ParseLeadingSeparator(b);
    ParseAppend(a, b);
  }


  /** Two commas regrouped as one comma before a comma-led rest. */
  lemma {:induction false} DoubledSeparator(a: string, b: string)
    ensures a + [Comma, Comma] + b == a + [Comma] + ([Comma] + b)
  {
  }

  lemma {:induction false} ParseLeadingSeparator(b: string)
    ensures Parse([Comma] + b) == Parse(b)
  {
    EmptyBefore([Comma] + b);
    ParseAppend([], b);
    ParseOfWs([]);
    EmptyBefore(Parse(b));
  }

  lemma {:induction false} EmptyBefore<T>(s: seq<T>)
    ensures [] + s == s
  {
  }

  lemma {:induction false} FormatCons(xs: seq<string>)
    requires |xs| >= 2
    ensures Format(xs) == xs[0] + [Comma] + ([' '] + Format(xs[1..]))
  {
    assert Separator == [Comma] + [' '];
  }

  lemma {:induction false} KeepSkill(x: string)
    requires IsSkill(x)
    ensures Keep(x) == [x]
  {
    assert [] + x + [] == x;
    TrimUnique([], x, []);
  }

  /** Showing well-formed skills and parsing the text shown gives them back. */
  lemma {:induction false} ParseFormat(xs: seq<string>)
    requires WellFormed(xs)
    ensures Parse(Format(xs)) == xs
    decreases |xs|
  {
    if xs == [] {
      ParseOfWs([]);
    } else {
      WellFormedSplit(xs);
      if |xs| == 1 {
        ParseSkill(xs[0]);
      } else {
        ParseFormat(xs[1..]);
        ParseFormatCons(xs);
      }
    }
  }

  lemma {:induction false} WellFormedSplit(xs: seq<string>)
    requires WellFormed(xs) && xs != []
    ensures IsSkill(xs[0]) && WellFormed(xs[1..])
    ensures |xs| == 1 ==> xs == [xs[0]]
  {
    assert forall i :: 0 <= i < |xs| - 1 ==> xs[1..][i] == xs[i + 1];
  }

  /** The inductive step of ParseFormat. */
  lemma {:induction false} ParseFormatCons(xs: seq<string>)
    requires |xs| >= 2 && IsSkill(xs[0])
    requires Parse(Format(xs[1..])) == xs[1..]
    ensures Parse(Format(xs)) == xs
  {
    var rest := Format(xs[1..]);
    FormatCons(xs);
    ParseAppend(xs[0], [' '] + rest);
    ParseSkill(xs[0]);
    ParseAfterSpace(rest);
    HeadTail(xs);
  }

  lemma {:induction false} ParseSkill(x: string)
    requires IsSkill(x)
    ensures Parse(x) == [x]
  {
    ParseSingle(x);
    KeepSkill(x);
  }

  lemma {:induction false} ParseAfterSpace(s: string)
    ensures Parse([' '] + s) == Parse(s)
  {
    assert AllWs([' ']);
    ParseIgnoresLeadingWs([' '], s);
  }

  /** Re-displaying the parsed skills and parsing again changes nothing. */
  lemma {:induction false} ParseIdempotent(s: string)
    ensures Parse(Format(Parse(s))) == Parse(s)
  {
    ParseFormat(Parse(s));
  }

  /** The shape of the worked example `"a, b ,c"`, for any three skills:
      the spaces on either side of a comma are dropped and the skills come
      out in order. */
  lemma {:induction false} ParseExample(x: string, y: string, z: string)
    requires IsSkill(x) && IsSkill(y) && IsSkill(z)
    ensures Parse(x + ", " + y + " ," + z) == [x, y, z]
  {
    var middle := " " + y + " ";
    ExampleSplitsAtCommas(x, y, z);
    ParseTriple(x, middle, z);
    ParseSkill(x);
    ParseSkill(z);
    SpaceIsWs();
    ParsePaddedSkill(" ", y, " ");
    Singletons(x, y, z);
  }


  /** Three singletons concatenated form the three-element list. */
  lemma {:induction false} Singletons<T>(a: T, b: T, c: T)
    ensures [a] + [b] + [c] == [a, b, c]
  {
  }

  lemma {:induction false} SpaceIsWs()
    ensures AllWs(" ")
  {
    assert " "[1..] == [];
  }


  /** The example's text, regrouped at its two commas. */
  lemma {:induction false} ExampleSplitsAtCommas(x: string, y: string, z: string)
    ensures x + ", " + y + " ," + z == x + [Comma] + ((" " + y + " ") + [Comma] + z)
  {
  }

  /** The skills of three comma-separated segments, in order. */
  lemma {:induction false} ParseTriple(x: string, m: string, z: string)
    ensures Parse(x + [Comma] + (m + [Comma] + z)) == Parse(x) + Parse(m) + Parse(z)
  {
    ParseAppend(x, m + [Comma] + z);
    ParseAppend(m, z);
    ConcatAssoc3(Parse(x), Parse(m), Parse(z));
  }

  /** Whitespace around a single skill is dropped. */
  lemma {:induction false} ParsePaddedSkill(a: string, x: string, b: string)
    requires AllWs(a) && AllWs(b) && IsSkill(x)
    ensures Parse(a + x + b) == [x]
  {
    AllWsExcludes(a, Comma);
    AllWsExcludes(b, Comma);
    assert Comma !in a + x + b;
    ParseSingle(a + x + b);
    TrimUnique(a, x, b);
  }
}
