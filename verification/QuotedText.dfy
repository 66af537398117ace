/** StripQuotedText: drops signatures, quoted lines and the headers that introduce them. */
module QuotedText {
  import opened Lines

  /** The source's isQuoteHeader: two regular expressions, any predicate here. */
  type HeaderTest = string -> bool

  predicate IsSignature(line: string) {
    TrimRight(line, {' ', '\t'}) == "--"
  }

  /** Two hyphens with nothing but blanks and tabs behind them. */
  lemma SignatureIs(line: string)
    ensures IsSignature(line) <==>
            |line| >= 2 && line[0] == '-' && line[1] == '-' && forall i :: 2 <= i < |line| ==> line[i] == ' ' || line[i] == '\t'
  {
    if |line| >= 2 && line[0] == '-' && line[1] == '-' && forall i :: 2 <= i < |line| ==> line[i] == ' ' || line[i] == '\t' {
      TrimRightIs(line[..2], line[2..], {' ', '\t'});
      assert line[..2] + line[2..] == line && line[..2] == "--";
    }
  }

  predicate IsQuoted(line: string) {
    line != "" && line[0] == '>'
  }

  /** The first nonempty line from j on is quoted. */
  ghost predicate QuoteFollows(lines: seq<string>, j: nat) {
    exists k :: j <= k < |lines| && IsQuoted(lines[k]) && forall m :: j <= m < k ==> lines[m] == ""
  }

  /** Line i survives: neither quoted nor the header of a quotation. */
  ghost predicate Survives(lines: seq<string>, i: nat, isHeader: HeaderTest)
    requires i < |lines|
  {
    !IsQuoted(lines[i]) && !(isHeader(lines[i]) && QuoteFollows(lines, i + 1))
  }

  ghost predicate HasSignature(lines: seq<string>) {
    exists i :: 0 <= i < |lines| && IsSignature(lines[i])
  }

  /** The lines before the first signature line; all of them when there is none. */
  ghost function BeforeSignature(lines: seq<string>): (r: seq<string>)
    ensures r <= lines && !HasSignature(r)
    ensures |r| < |lines| ==> IsSignature(lines[|r|])
  {
    if lines == [] then []
    else
      var front := BeforeSignature(lines[..|lines| - 1]);
      if |front| < |lines| - 1 || IsSignature(lines[|lines| - 1]) then front else lines
  }

  /** The positions of the surviving lines, in order. */
  ghost function SurvivorsUpTo(lines: seq<string>, n: nat, isHeader: HeaderTest): (r: seq<nat>)
    requires n <= |lines|
    ensures forall i :: 0 <= i < |r| ==> r[i] < n && Survives(lines, r[i], isHeader)
    ensures forall i, j :: 0 <= i < j < |r| ==> r[i] < r[j]
    ensures forall p :: 0 <= p < n && Survives(lines, p, isHeader) ==> p in r
  {
    if n == 0 then []
    else
      var before := SurvivorsUpTo(lines, n - 1, isHeader);
      if Survives(lines, n - 1, isHeader) then before + [n - 1] else before
  }

  ghost function Pick(lines: seq<string>, positions: seq<nat>): (r: seq<string>)
    requires forall i :: 0 <= i < |positions| ==> positions[i] < |lines|
    ensures |r| == |positions| && forall i :: 0 <= i < |r| ==> r[i] == lines[positions[i]]
  {
    seq(|positions|, i requires 0 <= i < |positions| => lines[positions[i]])
  }

  ghost function KeptUpTo(lines: seq<string>, n: nat, isHeader: HeaderTest): seq<string>
    requires n <= |lines|
  {
    if n == 0 then []
    else KeptUpTo(lines, n - 1, isHeader) + (if Survives(lines, n - 1, isHeader) then [lines[n - 1]] else [])
  }

  /** The kept lines are the lines at the surviving positions, each once and in order. */
  lemma {:induction false} KeptAreSurvivors(lines: seq<string>, n: nat, isHeader: HeaderTest)
    requires n <= |lines|
    ensures KeptUpTo(lines, n, isHeader) == Pick(lines, SurvivorsUpTo(lines, n, isHeader))
  {
    if n > 0 {
      KeptAreSurvivors(lines, n - 1, isHeader);
    }
  }

  /** The list-level filter: exactly the surviving lines before the signature. */
  ghost function KeptLines(lines: seq<string>, isHeader: HeaderTest): seq<string> {
    var body := BeforeSignature(lines);
    KeptUpTo(body, |body|, isHeader)
  }

  ghost function Stripped(body: string, isHeader: HeaderTest): string {
    TrimSpace(Join(KeptLines(Split(body), isHeader)))
  }

  // ----- the loops

  method FindSignature(lines: seq<string>) returns (n: nat)
    ensures n <= |lines| && lines[..n] == BeforeSignature(lines)
    ensures forall i :: 0 <= i < n ==> !IsSignature(lines[i])
    ensures n < |lines| ==> IsSignature(lines[n])
  {
    n := 0;
    while n < |lines| && !IsSignature(lines[n])
      invariant n <= |lines|
      invariant forall i :: 0 <= i < n ==> !IsSignature(lines[i])
    {
      n := n + 1;
    }
    CutIsUnique(lines, n);
  }

  lemma {:induction false} CutIsUnique(lines: seq<string>, n: nat)
    requires n <= |lines| && (forall i :: 0 <= i < n ==> !IsSignature(lines[i]))
    requires n < |lines| ==> IsSignature(lines[n])
    ensures BeforeSignature(lines) == lines[..n]
  {
    if lines != [] {
      var last := |lines| - 1;
      CutIsUnique(lines[..last], if n < last then n else last);
      if n == |lines| {
        assert lines[..n] == lines;
      } else {
        assert lines[..last][..n] == lines[..n];
      }
    }
  }

  /** The look-ahead: skips empty lines and inspects the first other one. */
  method NextIsQuoted(lines: seq<string>, start: nat) returns (quoted: bool)
    ensures quoted <==> QuoteFollows(lines, start)
  {
    var j := start;
    while j < |lines|
      invariant start <= j
      invariant forall m :: start <= m < j && m < |lines| ==> lines[m] == ""
    {
      if lines[j] != "" {
        quoted := IsQuoted(lines[j]);
        if quoted {
          return;
        }
        forall k | start <= k < |lines| && IsQuoted(lines[k])
          ensures exists m :: start <= m < k && lines[m] != ""
        {
          assert j < k;
        }
        return;
      }
      j := j + 1;
    }
    quoted := false;
  }

  method StripQuotedText(body: string, isHeader: HeaderTest) returns (r: string)
    ensures r == Stripped(body, isHeader)
  {
    var lines := Split(body);
    var n := FindSignature(lines);
    lines := lines[..n];
    var result: seq<string> := [];
    for i := 0 to |lines|
      invariant result == KeptUpTo(lines, i, isHeader)
    {
      if IsQuoted(lines[i]) {
        continue;
      }
      if isHeader(lines[i]) {
        var quoted := NextIsQuoted(lines, i + 1);
        if quoted {
          continue;
        }
      }
      result := result + [lines[i]];
    }
    r := TrimSpace(Join(result));
  }

  // ----- the list-level filter is idempotent

  lemma KeptLinesAreSettled(lines: seq<string>, isHeader: HeaderTest)
    ensures var kept := KeptLines(lines, isHeader);
      !HasSignature(kept) && forall i :: 0 <= i < |kept| ==> !IsQuoted(kept[i]) && kept[i] in lines
  {
    var body := BeforeSignature(lines);
    var positions := SurvivorsUpTo(body, |body|, isHeader);
    KeptAreSurvivors(body, |body|, isHeader);
    forall i | 0 <= i < |positions|
      ensures !IsSignature(body[positions[i]]) && !IsQuoted(body[positions[i]]) && body[positions[i]] in lines
    {
      assert lines[positions[i]] == body[positions[i]];
    }
  }

  lemma {:induction false} NothingQuotedAllSurvive(lines: seq<string>, n: nat, isHeader: HeaderTest)
    requires n <= |lines| && forall i :: 0 <= i < |lines| ==> !IsQuoted(lines[i])
    ensures KeptUpTo(lines, n, isHeader) == lines[..n]
  {
    if n > 0 {
      NothingQuotedAllSurvive(lines, n - 1, isHeader);
      assert Survives(lines, n - 1, isHeader);
      assert lines[..n] == lines[..n - 1] + [lines[n - 1]];
    }
  }

  /** A list is unchanged exactly when it has no signature line and no quoted line. */
  lemma KeptLinesFixed(lines: seq<string>, isHeader: HeaderTest)
    ensures KeptLines(lines, isHeader) == lines <==>
            !HasSignature(lines) && forall i :: 0 <= i < |lines| ==> !IsQuoted(lines[i])
  {
    KeptLinesAreSettled(lines, isHeader);
    if !HasSignature(lines) && forall i :: 0 <= i < |lines| ==> !IsQuoted(lines[i]) {
      assert BeforeSignature(lines) == lines;
      NothingQuotedAllSurvive(lines, |lines|, isHeader);
    }
  }

  lemma KeptLinesIdempotent(lines: seq<string>, isHeader: HeaderTest)
    ensures var kept := KeptLines(lines, isHeader); KeptLines(kept, isHeader) == kept
  {
    KeptLinesAreSettled(lines, isHeader);
    KeptLinesFixed(KeptLines(lines, isHeader), isHeader);
  }

  // ----- the whole string function is not idempotent

  predicate QuoteAfterBreakAt(s: string, i: nat)
    requires i < |s| - 1
  {
    s[i] == '\n' && s[i + 1] == '>'
  }

  /** No line after the first starts with '>'. */
  ghost predicate NoQuoteAfterBreak(s: string) {
    forall i :: 0 <= i < |s| - 1 ==> !QuoteAfterBreakAt(s, i)
  }

  lemma QuoteAfterBreakInTail(s: string)
    requires s != ""
    ensures NoQuoteAfterBreak(s) <==> NoQuoteAfterBreak(s[1..]) && !(s[0] == '\n' && IsQuoted(s[1..]))
  {
    var t := s[1..];
    if |s| > 1 {
      assert QuoteAfterBreakAt(s, 0) <==> s[0] == '\n' && IsQuoted(t);
    }
    forall i | 0 <= i < |t| - 1
      ensures QuoteAfterBreakAt(t, i) <==> QuoteAfterBreakAt(s, i + 1)
    {
    }
    forall i | 1 <= i < |s| - 1
      ensures QuoteAfterBreakAt(s, i) <==> QuoteAfterBreakAt(t, i - 1)
    {
    }
  }

  lemma {:induction false} QuotedLinesOf(s: string)
    ensures IsQuoted(Split(s)[0]) <==> IsQuoted(s)
    ensures NoQuoteAfterBreak(s) <==> forall i :: 1 <= i < |Split(s)| ==> !IsQuoted(Split(s)[i])
  {
    if s != "" {
      var lines, rest := Split(s), Split(s[1..]);
      QuotedLinesOf(s[1..]);
      QuoteAfterBreakInTail(s);
      if s[0] == '\n' {
        assert forall i :: 1 <= i < |lines| ==> lines[i] == rest[i - 1];
        assert forall i :: 0 <= i < |rest| ==> rest[i] == lines[i + 1];
      } else {
        assert forall i :: 1 <= i < |lines| ==> lines[i] == rest[i];
        assert forall i :: 1 <= i < |rest| ==> rest[i] == lines[i];
      }
    }
  }

  lemma TrimKeepsBreaks(s: string)
    requires NoQuoteAfterBreak(s)
    ensures NoQuoteAfterBreak(TrimSpace(s))
  {
    var before, after := TrimSpaceCuts(s);
    var t := TrimSpace(s);
    forall i | 0 <= i < |t| - 1
      ensures !QuoteAfterBreakAt(t, i)
    {
      assert QuoteAfterBreakAt(t, i) <==> QuoteAfterBreakAt(s, |before| + i);
    }
  }

  /** Only the first line of a result can be quoted: trimming may uncover its '>'. */
  lemma StrippedHasNoLaterQuote(body: string, isHeader: HeaderTest)
    ensures NoQuoteAfterBreak(Stripped(body, isHeader))
  {
    var kept := KeptLines(Split(body), isHeader);
    KeptLinesAreSettled(Split(body), isHeader);
    if kept != [] {
      SplitJoin(kept);
      QuotedLinesOf(Join(kept));
    }
    TrimKeepsBreaks(Join(kept));
  }

  /** Characters of the lines, counting one line end each. */
  function Weight(lines: seq<string>): nat {
    if lines == [] then 0 else Weight(lines[..|lines| - 1]) + |lines[|lines| - 1]| + 1
  }

  lemma {:induction false} JoinWeight(lines: seq<string>)
    requires lines != []
    ensures |Join(lines)| == Weight(lines) - 1
  {
    if |lines| > 1 {
      JoinWeight(lines[1..]);
      WeightFront(lines);
    }
  }

  lemma {:induction false} WeightFront(lines: seq<string>)
    requires lines != []
    ensures Weight(lines) == |lines[0]| + 1 + Weight(lines[1..])
  {
    if |lines| > 1 {
      var last := |lines| - 1;
      WeightFront(lines[..last]);
      assert lines[1..][..last - 1] == lines[..last][1..];
    }
  }

  lemma {:induction false} CutWeight(lines: seq<string>, n: nat)
    requires n <= |lines|
    ensures Weight(lines[..n]) + (|lines| - n) <= Weight(lines)
  {
    if n == |lines| {
      assert lines[..n] == lines;
    } else {
      var last := |lines| - 1;
      CutWeight(lines[..last], n);
      assert lines[..last][..n] == lines[..n];
    }
  }

  lemma WeightAppend(lines: seq<string>, line: string)
    ensures Weight(lines + [line]) == Weight(lines) + |line| + 1
  {
    assert (lines + [line])[..|lines|] == lines;
  }

  lemma {:induction false} KeptWeight(lines: seq<string>, n: nat, isHeader: HeaderTest)
    requires n <= |lines|
    ensures Weight(KeptUpTo(lines, n, isHeader)) <= Weight(lines[..n])
  {
    if n > 0 {
      KeptWeight(lines, n - 1, isHeader);
      WeightSteps(lines, n - 1, isHeader);
    }
  }

  lemma WeightSteps(lines: seq<string>, n: nat, isHeader: HeaderTest)
    requires n < |lines|
    ensures Weight(lines[..n + 1]) == Weight(lines[..n]) + |lines[n]| + 1
    ensures Weight(KeptUpTo(lines, n + 1, isHeader)) ==
            Weight(KeptUpTo(lines, n, isHeader)) + (if Survives(lines, n, isHeader) then |lines[n]| + 1 else 0)
  {
    var before := KeptUpTo(lines, n, isHeader);
    assert lines[..n + 1] == lines[..n] + [lines[n]];
    WeightAppend(lines[..n], lines[n]);
    WeightAppend(before, lines[n]);
    assert before + [] == before;
  }

  lemma {:induction false} DroppedLineWeight(lines: seq<string>, n: nat, p: nat, isHeader: HeaderTest)
    requires p < n <= |lines| && !Survives(lines, p, isHeader)
    ensures Weight(KeptUpTo(lines, n, isHeader)) < Weight(lines[..n])
  {
    WeightSteps(lines, n - 1, isHeader);
    if p == n - 1 {
      KeptWeight(lines, n - 1, isHeader);
    } else {
      DroppedLineWeight(lines, n - 1, p, isHeader);
    }
  }

  lemma ShorterBodyShrinks(lines: seq<string>, isHeader: HeaderTest)
    requires |BeforeSignature(lines)| < |lines|
    ensures Weight(KeptLines(lines, isHeader)) < Weight(lines)
  {
    var body := BeforeSignature(lines);
    CutWeight(lines, |body|);
    KeptWeight(body, |body|, isHeader);
    assert body[..|body|] == body == lines[..|body|];
  }

  lemma QuotedLineShrinks(lines: seq<string>, i: nat, isHeader: HeaderTest)
    requires BeforeSignature(lines) == lines && i < |lines| && IsQuoted(lines[i])
    ensures Weight(KeptLines(lines, isHeader)) < Weight(lines)
  {
    DroppedLineWeight(lines, |lines|, i, isHeader);
    assert lines[..|lines|] == lines;
  }

  lemma UnsettledLinesShrink(lines: seq<string>, isHeader: HeaderTest)
    requires HasSignature(lines) || exists i :: 0 <= i < |lines| && IsQuoted(lines[i])
    ensures Weight(KeptLines(lines, isHeader)) < Weight(lines)
  {
    if BeforeSignature(lines) != lines {
      ShorterBodyShrinks(lines, isHeader);
    } else {
      var i :| 0 <= i < |lines| && IsQuoted(lines[i]);
      QuotedLineShrinks(lines, i, isHeader);
    }
  }

  lemma SecondPassOnResult(body: string, isHeader: HeaderTest)
    ensures var s := Stripped(body, isHeader);
      Stripped(s, isHeader) == s <==> !HasSignature(Split(s)) && !IsQuoted(s)
  {
    var s := Stripped(body, isHeader);
    var lines := Split(s);
    StrippedHasNoLaterQuote(body, isHeader);
    QuotedLinesOf(s);
    JoinSplit(s);
    if !HasSignature(lines) && !IsQuoted(s) {
      KeptLinesFixed(lines, isHeader);
    } else {
      UnsettledLinesShrink(lines, isHeader);
      JoinWeight(lines);
      var kept := KeptLines(lines, isHeader);
      if kept != [] {
        JoinWeight(kept);
      } else {
        SignatureOrQuoteHasText(s);
      }
    }
  }

  lemma SignatureOrQuoteHasText(s: string)
    requires HasSignature(Split(s)) || IsQuoted(s)
    ensures s != ""
  {
    assert !IsSignature("");
  }

  /** Trimming the span from line a to line b turns one of its ends into a line the filter drops. */
  predicate Uncovers(kept: seq<string>, a: nat, b: nat)
    requires a <= b < |kept|
  {
    if a == b then IsQuoted(TrimSpace(kept[a])) || IsSignature(TrimSpace(kept[a]))
    else IsQuoted(TrimLeftSpace(kept[a])) || IsSignature(TrimLeftSpace(kept[a])) || IsSignature(TrimRightSpace(kept[b]))
  }

  /**
   What the final TrimSpace may uncover: the first visible kept line without its leading
   white space, or the last without its trailing white space, is one the filter drops.
   */
  predicate TrimUncovers(kept: seq<string>) {
    exists a, b :: 0 <= a <= b < |kept| && StartsAt(kept, a) && EndsAt(kept, b) && Uncovers(kept, a, b)
  }

  /** The lines of a trimmed list: its visible span, outer white space cut off. */
  lemma TrimmedLines(lines: seq<string>, a: nat, b: nat)
    requires StartsAt(lines, a) && EndsAt(lines, b) && a <= b
    requires Unbroken(lines)
    ensures Split(TrimSpace(Join(lines))) == Span(lines, a, b)
  {
    TrimSpanJoin(lines, a, b);
    SpanIsLines(lines, a, b);
    SplitJoin(Span(lines, a, b));
  }

  lemma KeptAreLines(body: string, isHeader: HeaderTest)
    ensures Unbroken(KeptLines(Split(body), isHeader)) && !HasSignature(KeptLines(Split(body), isHeader))
  {
    KeptLinesAreSettled(Split(body), isHeader);
  }

  lemma TrimmedPieces(line: string)
    requires '\n' !in line
    ensures '\n' !in TrimLeftSpace(line) && '\n' !in TrimRightSpace(line) && '\n' !in TrimSpace(line)
  {
    var before := TrimLeftCuts(line);
    var inner := TrimRightCuts(TrimLeftSpace(line));
  }

  /** No line holds a line end: the list is what Split gives back. */
  ghost predicate Unbroken(lines: seq<string>) {
    forall i :: 0 <= i < |lines| ==> '\n' !in lines[i]
  }

  lemma UnbrokenEnds(first: string, middle: seq<string>, last: string)
    requires '\n' !in first && '\n' !in last && Unbroken(middle)
    ensures Unbroken([first] + middle + [last])
  {
    var all := [first] + middle + [last];
    forall i | 0 <= i < |all|
      ensures '\n' !in all[i]
    {
      if 0 < i < |all| - 1 {
        assert all[i] == middle[i - 1];
      }
    }
  }

  lemma SpanIsLines(lines: seq<string>, a: nat, b: nat)
    requires a <= b < |lines| && Unbroken(lines)
    ensures Unbroken(Span(lines, a, b))
  {
    TrimmedPieces(lines[a]);
    TrimmedPieces(lines[b]);
    if a < b {
      UnbrokenEnds(TrimLeftSpace(lines[a]), lines[a + 1..b], TrimRightSpace(lines[b]));
    }
  }

  lemma SignatureOf(first: string, middle: seq<string>, last: string)
    requires !HasSignature(middle)
    ensures HasSignature([first] + middle + [last]) <==> IsSignature(first) || IsSignature(last)
  {
    var all := [first] + middle + [last];
    assert all[0] == first && all[|all| - 1] == last;
    forall i | 0 < i < |all| - 1
      ensures !IsSignature(all[i])
    {
      assert all[i] == middle[i - 1];
    }
  }

  lemma MiddleHasNoSignature(kept: seq<string>, a: nat, b: nat)
    requires a <= b <= |kept| && !HasSignature(kept)
    ensures !HasSignature(kept[a..b])
  {
  }

  lemma SpanSignature(kept: seq<string>, a: nat, b: nat)
    requires a < b < |kept| && !HasSignature(kept)
    ensures HasSignature(Span(kept, a, b)) <==> IsSignature(TrimLeftSpace(kept[a])) || IsSignature(TrimRightSpace(kept[b]))
  {
    MiddleHasNoSignature(kept, a + 1, b);
    SignatureOf(TrimLeftSpace(kept[a]), kept[a + 1..b], TrimRightSpace(kept[b]));
  }

  lemma SpanUncovers(kept: seq<string>, a: nat, b: nat)
    requires a <= b < |kept| && !HasSignature(kept)
    ensures Uncovers(kept, a, b) <==> HasSignature(Span(kept, a, b)) || IsQuoted(Span(kept, a, b)[0])
  {
    var span := Span(kept, a, b);
    if a < b {
      SpanSignature(kept, a, b);
    } else {
      assert span[0] == TrimSpace(kept[a]);
    }
  }

  lemma OuterLinesAreUnique(kept: seq<string>, a: nat, b: nat)
    requires a <= b && StartsAt(kept, a) && EndsAt(kept, b)
    ensures TrimUncovers(kept) <==> Uncovers(kept, a, b)
  {
  }

  lemma VisibleUncovers(kept: seq<string>, i: nat)
    requires i < |kept| && !AllSpace(kept[i]) && Unbroken(kept) && !HasSignature(kept)
    ensures var s := TrimSpace(Join(kept)); TrimUncovers(kept) <==> HasSignature(Split(s)) || IsQuoted(Split(s)[0])
  {
    var a := FirstVisible(kept, i);
    var b := LastVisible(kept, i);
    TrimmedLines(kept, a, b);
    SpanUncovers(kept, a, b);
    OuterLinesAreUnique(kept, a, b);
  }

  lemma InvisibleUncovers(kept: seq<string>)
    requires forall i :: 0 <= i < |kept| ==> AllSpace(kept[i])
    ensures !TrimUncovers(kept) && TrimSpace(Join(kept)) == ""
  {
    InvisibleJoin(kept);
  }

  /**
   A second pass changes nothing exactly when trimming uncovers neither a '>' nor a
   signature among the kept lines of the body.
   */
  lemma StrippedTwice(body: string, isHeader: HeaderTest)
    ensures Stripped(Stripped(body, isHeader), isHeader) == Stripped(body, isHeader) <==>
            !TrimUncovers(KeptLines(Split(body), isHeader))
  {
    var kept := KeptLines(Split(body), isHeader);
    SecondPassOnResult(body, isHeader);
    QuotedLinesOf(Stripped(body, isHeader));
    KeptAreLines(body, isHeader);
    if i :| 0 <= i < |kept| && !AllSpace(kept[i]) {
      VisibleUncovers(kept, i);
    } else {
      InvisibleUncovers(kept);
    }
  }

  lemma OneLine(line: string, isHeader: HeaderTest)
    requires '\n' !in line && !IsSignature(line)
    ensures KeptLines(Split(line), isHeader) == if IsQuoted(line) then [] else [line]
  {
    SplitWithoutNewline(line);
    var lines := [line];
    CutIsUnique(lines, 1);
    assert lines[..1] == lines;
    assert KeptUpTo(lines, 0, isHeader) == [];
  }

  lemma SmallTexts()
    ensures !IsSignature(" > b") && !IsSignature("> b")
    ensures TrimSpace(" > b") == "> b" && TrimSpace("") == ""
  {
    var body := " > b";
    assert body[1..] == "> b" && !IsSpace('>') && IsSpace(' ');
    assert TrimLeftSpace(body) == TrimLeftSpace("> b") == "> b";
  }

  /** An indented '>' survives the first pass and not the second, even in a body that is otherwise clean. */
  lemma IndentedQuoteNeedsTwoPasses(isHeader: HeaderTest)
    ensures Stripped("> a\n > b", isHeader) == "> b"
    ensures Stripped("> b", isHeader) == ""
  {
    SmallTexts();
    assert '\n' !in " > b" && !IsQuoted(" > b") && IsQuoted("> b") && '\n' !in "> a";
    OneLine("> b", isHeader);
    QuoteThenIndented(isHeader);
    assert Join([" > b"]) == " > b" && Join([]) == "";
  }

  lemma QuotedThenPlain(a: string, b: string, isHeader: HeaderTest)
    requires '\n' !in a && '\n' !in b && IsQuoted(a) && !IsQuoted(b) && !IsSignature(a) && !IsSignature(b)
    ensures KeptLines(Split(a + ("\n" + b)), isHeader) == [b]
  {
    var lines := [a, b];
    SplitAtNewline(a, b);
    SplitWithoutNewline(b);
    assert [a] + [b] == lines;
    CutIsUnique(lines, 2);
    assert lines[..2] == lines;
    assert KeptUpTo(lines, 0, isHeader) == [] && KeptUpTo(lines, 1, isHeader) == [];
    assert Survives(lines, 1, isHeader);
  }

  lemma QuoteThenIndented(isHeader: HeaderTest)
    ensures KeptLines(Split("> a\n > b"), isHeader) == [" > b"]
  {
    SmallTexts();
    assert "> a\n > b" == "> a" + ("\n" + " > b");
    assert !IsSignature("> a") && '\n' !in "> a" && '\n' !in " > b";
    QuotedThenPlain("> a", " > b", isHeader);
  }
}
