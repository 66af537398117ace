/**
 The two passes over a message body one after the other: quoted text is stripped from
 text whose white space was normalised. What survives of the normal form, and when.
 */
module CleanBody {
  import opened Lines
  import opened Whitespace
  import opened QuotedText

  /** What the parser keeps of a body. */
  ghost function BodyOf(text: string, isHeader: HeaderTest): string {
    Stripped(Normalized(text), isHeader)
  }

  // ----- line by line, the text stays tidy

  /** No tab, no double and no trailing space comes back, and the text stays trimmed. */
  lemma StrippedStaysTidy(body: string, isHeader: HeaderTest)
    requires Tidy(body)
    ensures Tidy(Stripped(body, isHeader)) && Trimmed(Stripped(body, isHeader))
  {
    var kept := KeptLines(Split(body), isHeader);
    TidyLines(body);
    KeptLinesAreSettled(Split(body), isHeader);
    assert forall i :: 0 <= i < |kept| ==> Tidy(kept[i]);
    JoinIsTidy(kept);
    TrimKeepsTidy(Join(kept));
  }

  // ----- gaps between the lines

  /** Two empty lines with a line on either side: three newlines in a row. */
  predicate GapAt(lines: seq<string>, i: int) {
    0 < i < |lines| - 2 && lines[i] == "" == lines[i + 1]
  }

  ghost predicate HasGap(lines: seq<string>) {
    exists i :: GapAt(lines, i)
  }

  lemma GapBehindEmpty(rest: seq<string>)
    ensures HasGap([""] + rest) <==> HasGap(rest) || (|rest| > 2 && rest[0] == "" == rest[1])
  {
    var lines := [""] + rest;
    assert |rest| > 2 && rest[0] == "" == rest[1] <==> GapAt(lines, 1);
    forall i | i > 1
      ensures GapAt(lines, i) <==> GapAt(rest, i - 1)
    {
    }
    if i :| GapAt(rest, i) {
      assert GapAt(lines, i + 1);
    }
  }

  lemma GapBehindText(first: string, other: string, tail: seq<string>)
    ensures HasGap([first] + tail) <==> HasGap([other] + tail)
  {
    forall i
      ensures GapAt([first] + tail, i) <==> GapAt([other] + tail, i)
    {
    }
  }

  /** Two newlines come first exactly when two empty lines do, with a third line after them. */
  lemma TwoBreaks(s: string)
    ensures |Split(s)| > 2 && Split(s)[0] == "" == Split(s)[1] <==> |s| > 1 && s[0] == s[1] == '\n'
  {
    if s != "" && s[0] == '\n' {
      assert Split(s) == [""] + Split(s[1..]);
    }
  }

  lemma GapInTail(s: string)
    requires s != ""
    ensures HasGap(Split(s)) <==> HasGap(Split(s[1..])) || (|s| > 2 && s[0] == s[1] == s[2] == '\n')
  {
    var rest := Split(s[1..]);
    if s[0] == '\n' {
      GapBehindEmpty(rest);
      TwoBreaks(s[1..]);
    } else {
      GapBehindText([s[0]] + rest[0], rest[0], rest[1..]);
      assert rest == [rest[0]] + rest[1..];
    }
  }

  lemma BigGapInTail(s: string)
    requires s != ""
    ensures NoBigGap(s) <==> NoBigGap(s[1..]) && !(|s| > 2 && s[0] == s[1] == s[2] == '\n')
  {
    var t := s[1..];
    if |s| > 2 && s[0] == s[0 + 1] == s[0 + 2] == '\n' {
      assert !NoBigGap(s);
    }
    if !NoBigGap(t) {
      var i :| 0 <= i < |t| - 2 && t[i] == t[i + 1] == t[i + 2] == '\n';
      assert s[i + 1] == s[i + 1 + 1] == s[i + 1 + 2] == '\n';
    }
    if !NoBigGap(s) && !(|s| > 2 && s[0] == s[1] == s[2] == '\n') {
      var i :| 0 <= i < |s| - 2 && s[i] == s[i + 1] == s[i + 2] == '\n';
      assert t[i - 1] == t[i - 1 + 1] == t[i - 1 + 2] == '\n';
    }
  }

  lemma {:induction false} BigGapIsEmptyLines(s: string)
    ensures NoBigGap(s) <==> !HasGap(Split(s))
  {
    if s != "" {
      BigGapIsEmptyLines(s[1..]);
      BigGapInTail(s);
      GapInTail(s);
    }
  }

  // ----- when stripping opens a gap

  predicate EmptyPair(lines: seq<string>, i: int) {
    0 <= i < |lines| - 1 && lines[i] == "" == lines[i + 1]
  }

  /** Two neighbouring kept lines are empty, with visible text before and after them. */
  predicate LeavesGap(kept: seq<string>) {
    exists a, b, i :: 0 <= a < i < b - 1 < |kept| && StartsAt(kept, a) && EndsAt(kept, b) && EmptyPair(kept, i)
  }

  /** An inner gap of the trimmed span is one of the kept lines. */
  lemma SpanGap(kept: seq<string>, a: nat, b: nat, i: int)
    requires a <= b < |kept|
    ensures GapAt(Span(kept, a, b), i) <==> 0 < i < b - a - 1 && kept[a + i] == "" == kept[a + i + 1]
  {
    var span := Span(kept, a, b);
    if 0 < i < b - a - 1 {
      assert span[i] == kept[a + i] && span[i + 1] == kept[a + i + 1];
    }
  }

  lemma SpanGaps(kept: seq<string>, a: nat, b: nat)
    requires a <= b < |kept|
    ensures HasGap(Span(kept, a, b)) <==> exists i :: a < i < b - 1 && EmptyPair(kept, i)
  {
    if i :| GapAt(Span(kept, a, b), i) {
      SpanGap(kept, a, b, i);
      assert EmptyPair(kept, a + i);
    }
    if i :| a < i < b - 1 && EmptyPair(kept, i) {
      SpanGap(kept, a, b, i - a);
    }
  }

  lemma GapsOfSpan(kept: seq<string>, a: nat, b: nat)
    requires a <= b && StartsAt(kept, a) && EndsAt(kept, b)
    ensures LeavesGap(kept) <==> HasGap(Span(kept, a, b))
  {
    SpanGaps(kept, a, b);
  }

  lemma VisibleGap(kept: seq<string>, i: nat)
    requires i < |kept| && !AllSpace(kept[i]) && Unbroken(kept)
    ensures NoBigGap(TrimSpace(Join(kept))) <==> !LeavesGap(kept)
  {
    var a := FirstVisible(kept, i);
    var b := LastVisible(kept, i);
    TrimmedLines(kept, a, b);
    GapsOfSpan(kept, a, b);
    BigGapIsEmptyLines(TrimSpace(Join(kept)));
  }

  /** A big gap comes back exactly when two empty lines meet between visible kept lines. */
  lemma GapsOfStripped(body: string, isHeader: HeaderTest)
    ensures NoBigGap(Stripped(body, isHeader)) <==> !LeavesGap(KeptLines(Split(body), isHeader))
  {
    var kept := KeptLines(Split(body), isHeader);
    KeptAreLines(body, isHeader);
    if i :| 0 <= i < |kept| && !AllSpace(kept[i]) {
      VisibleGap(kept, i);
    } else {
      InvisibleJoin(kept);
    }
  }

  /** The parser's body is in normal form unless dropping lines made two empty ones meet. */
  lemma BodyIsClean(text: string, isHeader: HeaderTest)
    ensures Tidy(BodyOf(text, isHeader)) && Trimmed(BodyOf(text, isHeader))
    ensures Clean(BodyOf(text, isHeader)) <==> !LeavesGap(KeptLines(Split(Normalized(text)), isHeader))
  {
    NormalizedIsClean(text);
    StrippedStaysTidy(Normalized(text), isHeader);
    GapsOfStripped(Normalized(text), isHeader);
  }

  // ----- both happen to clean bodies

  lemma QuoteIsClean()
    ensures Clean("> a\n > b")
  {
    var s := "> a\n > b";
    assert |s| == 8 && s[1] == ' ' && s[2] == 'a' && s[4] == ' ' && s[5] == '>' && s[6] == ' ' && s[7] == 'b';
  }

  /** The body that needs a second pass is one the parser can pass on. */
  lemma IndentedQuoteIsClean(isHeader: HeaderTest)
    ensures Clean("> a\n > b") && Stripped("> a\n > b", isHeader) == "> b"
    ensures Stripped("> b", isHeader) == ""
  {
    QuoteIsClean();
    IndentedQuoteNeedsTwoPasses(isHeader);
  }

  const AROUND_QUOTE := ["a", "", "> q", "", "b"]

  lemma JoinTwoLines(first: string, rest: seq<string>, joined: string)
    requires rest != [] && Join(rest) == joined
    ensures Join([first] + rest) == first + ("\n" + joined)
  {
    assert ([first] + rest)[1..] == rest;
  }

  lemma AroundQuoteJoins()
    ensures Join(AROUND_QUOTE) == "a\n\n> q\n\nb"
  {
    JoinTwoLines("", ["b"], "b");
    JoinTwoLines("> q", [""] + ["b"], "\nb");
    JoinTwoLines("", ["> q"] + ([""] + ["b"]), "> q\n\nb");
    JoinTwoLines("a", [""] + (["> q"] + ([""] + ["b"])), "\n> q\n\nb");
  }

  lemma AroundQuoteIsBody()
    ensures Split("a\n\n> q\n\nb") == AROUND_QUOTE
  {
    AroundQuoteJoins();
    SplitJoin(AROUND_QUOTE);
  }

  lemma FirstParagraphKept(isHeader: HeaderTest)
    requires !isHeader("a") && !isHeader("")
    ensures KeptUpTo(AROUND_QUOTE, 2, isHeader) == ["a", ""]
  {
    var lines := AROUND_QUOTE;
    assert KeptUpTo(lines, 1, isHeader) == KeptUpTo(lines, 0, isHeader) + ["a"] == ["a"];
  }

  lemma QuoteDropped(isHeader: HeaderTest)
    requires !isHeader("a") && !isHeader("")
    ensures KeptUpTo(AROUND_QUOTE, 3, isHeader) == ["a", ""]
  {
    var lines := AROUND_QUOTE;
    FirstParagraphKept(isHeader);
    assert IsQuoted(lines[2]);
    assert KeptUpTo(lines, 3, isHeader) == KeptUpTo(lines, 2, isHeader) + [];
  }

  lemma SecondParagraphKept(isHeader: HeaderTest)
    requires !isHeader("a") && !isHeader("")
    ensures KeptUpTo(AROUND_QUOTE, 5, isHeader) == ["a", "", "", "b"]
  {
    var lines := AROUND_QUOTE;
    QuoteDropped(isHeader);
    assert KeptUpTo(lines, 4, isHeader) == KeptUpTo(lines, 3, isHeader) + [""];
    assert KeptUpTo(lines, 5, isHeader) == KeptUpTo(lines, 4, isHeader) + ["b"];
  }

  lemma AroundQuoteHasNoSignature()
    ensures BeforeSignature(AROUND_QUOTE) == AROUND_QUOTE
  {
    var lines := AROUND_QUOTE;
    CutIsUnique(lines, 5);
    assert lines[..5] == lines;
  }

  lemma QuoteDropsOut(isHeader: HeaderTest)
    requires !isHeader("a") && !isHeader("")
    ensures KeptLines(AROUND_QUOTE, isHeader) == ["a", "", "", "b"]
  {
    AroundQuoteHasNoSignature();
    SecondParagraphKept(isHeader);
  }

  lemma AroundQuoteIsClean()
    ensures Clean("a\n\n> q\n\nb")
  {
    var s := "a\n\n> q\n\nb";
    assert |s| == 9 && s[0] == 'a' && s[3] == '>' && s[5] == 'q' && s[8] == 'b';
  }

  lemma GapIsBig()
    ensures !Clean("a\n\n\nb")
  {
    var s := "a\n\n\nb";
    assert s[1] == s[1 + 1] == s[1 + 2] == '\n';
    assert !NoBigGap(s);
  }

  lemma GapText()
    ensures TrimSpace(Join(["a", "", "", "b"])) == "a\n\n\nb"
  {
    var lines := ["a", "", "", "b"];
    assert lines[1..] == ["", "", "b"] && lines[1..][1..] == ["", "b"] && lines[1..][1..][1..] == ["b"];
    assert Join(["", "b"]) == "\nb" && Join(["", "", "b"]) == "\n\nb" && Join(lines) == "a\n\n\nb";
  }

  /** A quotation between two paragraphs leaves three newlines behind. */
  lemma DroppedQuoteLeavesGap(isHeader: HeaderTest)
    requires !isHeader("a") && !isHeader("")
    ensures Clean("a\n\n> q\n\nb") && Stripped("a\n\n> q\n\nb", isHeader) == "a\n\n\nb"
    ensures !Clean("a\n\n\nb")
  {
    AroundQuoteIsClean();
    AroundQuoteIsBody();
    QuoteDropsOut(isHeader);
    GapText();
    GapIsBig();
  }
}
