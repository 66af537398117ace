/** normalizeWhitespace: one space between words, at most one blank line between paragraphs. */
module Whitespace {
  import opened Lines

  predicate IsBlank(c: char) {
    c == ' ' || c == '\t'
  }

  /** Every run of blanks becomes one space. */
  function Collapse(s: string): (r: string)
    ensures s == "" <==> r == ""
    ensures s != "" ==> r[0] == if IsBlank(s[0]) then ' ' else s[0]
    ensures forall i :: 0 <= i < |r| ==> r[i] != '\t' && (r[i] == '\n' ==> '\n' in s)
    ensures forall i :: 0 <= i < |r| - 1 ==> !(r[i] == ' ' && r[i + 1] == ' ')
  {
    if s == "" then ""
    else if !IsBlank(s[0]) then [s[0]] + Collapse(s[1..])
    else if |s| > 1 && IsBlank(s[1]) then Collapse(s[1..])
    else " " + Collapse(s[1..])
  }

  function CleanLine(line: string): string {
    TrimRight(Collapse(line), {' '})
  }

  function CleanLines(lines: seq<string>): (r: seq<string>)
    ensures |r| == |lines|
    ensures forall i :: 0 <= i < |r| ==> r[i] == CleanLine(lines[i])
  {
    seq(|lines|, i requires 0 <= i < |lines| => CleanLine(lines[i]))
  }

  /** Every run of three or more newlines becomes two. */
  function Squeeze(s: string): (r: string)
    ensures s == "" <==> r == ""
    ensures s != "" ==> r[0] == s[0]
  {
    if s == "" then ""
    else if |s| >= 3 && s[0] == s[1] == s[2] == '\n' then Squeeze(s[1..])
    else [s[0]] + Squeeze(s[1..])
  }

  function Normalized(s: string): string {
    TrimSpace(Squeeze(Join(CleanLines(Split(s)))))
  }

  /** The loop of the source: each line is overwritten with its cleaned form. */
  method CleanInPlace(lines: array<string>)
    modifies lines
    ensures lines[..] == CleanLines(old(lines[..]))
  {
    for i := 0 to lines.Length
      invariant forall k :: 0 <= k < i ==> lines[k] == CleanLine(old(lines[k]))
      invariant forall k :: i <= k < lines.Length ==> lines[k] == old(lines[k])
    {
      lines[i] := TrimRight(Collapse(lines[i]), {' '});
    }
  }

  method NormalizeWhitespace(s: string) returns (r: string)
    ensures r == Normalized(s)
  {
    var parts := Split(s);
    var lines := new string[|parts|](i requires 0 <= i < |parts| => parts[i]);
    assert lines[..] == parts;
    CleanInPlace(lines);
    r := TrimSpace(Squeeze(Join(lines[..])));
  }

  // ----- the shape of the result

  /** No tab; every space has a visible neighbour on its right: no double or trailing space. */
  ghost predicate Tidy(s: string) {
    && (forall i :: 0 <= i < |s| ==> s[i] != '\t')
    && (forall i :: 0 <= i < |s| && s[i] == ' ' ==> i + 1 < |s| && s[i + 1] != ' ' && s[i + 1] != '\n')
  }

  ghost predicate NoBigGap(s: string) {
    forall i :: 0 <= i < |s| - 2 ==> !(s[i] == s[i + 1] == s[i + 2] == '\n')
  }

  ghost predicate Clean(s: string) {
    Tidy(s) && NoBigGap(s) && Trimmed(s)
  }

  lemma CleanLineIsTidy(line: string)
    requires '\n' !in line
    ensures Tidy(CleanLine(line)) && '\n' !in CleanLine(line)
  {
  }

  lemma TidyLinesJoin(a: string, b: string)
    requires Tidy(a) && Tidy(b)
    ensures Tidy(a + ("\n" + b))
  {
    var s := a + ("\n" + b);
    assert forall i :: 0 <= i < |s| ==> s[i] == if i < |a| then a[i] else if i == |a| then '\n' else b[i - |a| - 1];
  }

  lemma {:induction false} JoinIsTidy(lines: seq<string>)
    requires forall i :: 0 <= i < |lines| ==> Tidy(lines[i])
    ensures Tidy(Join(lines))
  {
    if |lines| > 1 {
      JoinIsTidy(lines[1..]);
      TidyLinesJoin(lines[0], Join(lines[1..]));
    }
  }

  lemma {:induction false} SqueezeIsTidy(s: string)
    requires Tidy(s)
    ensures Tidy(Squeeze(s))
  {
    if s != "" {
      assert Tidy(s[1..]);
      SqueezeIsTidy(s[1..]);
    }
  }

  lemma {:induction false} SqueezeClosesGaps(s: string)
    ensures NoBigGap(Squeeze(s))
  {
    if s != "" {
      SqueezeClosesGaps(s[1..]);
      var rest := Squeeze(s[1..]);
      if !(|s| >= 3 && s[0] == s[1] == s[2] == '\n') && |s| >= 3 && s[1] == '\n' {
        assert s[1..][1..] == s[2..] && Squeeze(s[2..])[0] == s[2];
      }
    }
  }

  lemma PartIsTidy(s: string, lo: nat, hi: nat)
    requires Tidy(s) && lo <= hi <= |s| && (lo < hi ==> s[hi - 1] != ' ')
    ensures Tidy(s[lo..hi])
  {
    var t := s[lo..hi];
    forall i | 0 <= i < |t| && t[i] == ' '
      ensures i + 1 < |t| && t[i + 1] != ' ' && t[i + 1] != '\n'
    {
      assert s[lo + i] == ' ' && s[lo + i + 1] != ' ';
    }
  }

  lemma PartHasNoBigGap(s: string, lo: nat, hi: nat)
    requires NoBigGap(s) && lo <= hi <= |s|
    ensures NoBigGap(s[lo..hi])
  {
    var t := s[lo..hi];
    forall i | 0 <= i < |t| - 2
      ensures !(t[i] == t[i + 1] == t[i + 2] == '\n')
    {
      assert !(s[lo + i] == s[lo + i + 1] == s[lo + i + 2] == '\n');
    }
  }

  /** TrimSpace cuts one part out of the text, and the part does not end in white space. */
  lemma TrimIsPart(s: string) returns (lo: nat, hi: nat)
    ensures lo <= hi <= |s| && TrimSpace(s) == s[lo..hi] && (lo < hi ==> !IsSpace(s[hi - 1]))
  {
    var before, after := TrimSpaceCuts(s);
    lo, hi := |before|, |before| + |TrimSpace(s)|;
  }

  lemma TrimKeepsTidy(s: string)
    requires Tidy(s)
    ensures Tidy(TrimSpace(s))
  {
    var lo, hi := TrimIsPart(s);
    PartIsTidy(s, lo, hi);
  }

  lemma TrimKeepsClean(s: string)
    requires Tidy(s) && NoBigGap(s)
    ensures Clean(TrimSpace(s))
  {
    TrimKeepsTidy(s);
    var lo, hi := TrimIsPart(s);
    PartHasNoBigGap(s, lo, hi);
  }

  lemma NormalizedIsClean(s: string)
    ensures Clean(Normalized(s))
  {
    var lines := Split(s);
    forall i | 0 <= i < |lines|
      ensures Tidy(CleanLines(lines)[i])
    {
      CleanLineIsTidy(lines[i]);
    }
    var joined := Join(CleanLines(lines));
    JoinIsTidy(CleanLines(lines));
    SqueezeIsTidy(joined);
    SqueezeClosesGaps(joined);
    TrimKeepsClean(Squeeze(joined));
  }

  // ----- clean text is left alone

  lemma {:induction false} TidyLines(s: string)
    requires Tidy(s)
    ensures forall i :: 0 <= i < |Split(s)| ==> Tidy(Split(s)[i])
  {
    if s != "" {
      assert Tidy(s[1..]);
      TidyLines(s[1..]);
      var rest := Split(s[1..]);
      if s[0] != '\n' {
        assert |s| > 1 && s[1] != '\n' ==> rest[0] != "" && rest[0][0] == s[1];
        assert Tidy([s[0]] + rest[0]);
      }
    }
  }

  lemma {:induction false} CollapseKeepsTidy(s: string)
    requires Tidy(s)
    ensures Collapse(s) == s
  {
    if s != "" {
      assert Tidy(s[1..]);
      CollapseKeepsTidy(s[1..]);
      assert s == [s[0]] + s[1..];
    }
  }

  lemma {:induction false} SqueezeKeepsNoBigGap(s: string)
    requires NoBigGap(s)
    ensures Squeeze(s) == s
  {
    if s != "" {
      assert NoBigGap(s[1..]);
      SqueezeKeepsNoBigGap(s[1..]);
      assert s == [s[0]] + s[1..];
    }
  }

  /** The texts normalizeWhitespace leaves unchanged are exactly the clean ones. */
  lemma FixedExactlyWhenClean(s: string)
    ensures Normalized(s) == s <==> Clean(s)
  {
    NormalizedIsClean(s);
    if Clean(s) {
      var lines := Split(s);
      TidyLines(s);
      forall i | 0 <= i < |lines|
        ensures CleanLine(lines[i]) == lines[i]
      {
        CollapseKeepsTidy(lines[i]);
      }
      assert CleanLines(lines) == lines;
      JoinSplit(s);
      SqueezeKeepsNoBigGap(s);
    }
  }

  lemma NormalizedIsIdempotent(s: string)
    ensures Normalized(Normalized(s)) == Normalized(s)
  {
    NormalizedIsClean(s);
    FixedExactlyWhenClean(Normalized(s));
  }

  // ----- what a reader sees is preserved

  /** What separates two visible characters. Before the first one nothing counts. */
  datatype Gap = Start | Touching | Blank | LineBreak | Paragraph

  function Widen(g: Gap, c: char): Gap
    requires IsSpace(c)
  {
    match g
    case Start => Start
    case Touching => if c == '\n' then LineBreak else Blank
    case Blank => if c == '\n' then LineBreak else Blank
    case LineBreak => if c == '\n' then Paragraph else LineBreak
    case Paragraph => Paragraph
  }

  function Mark(g: Gap): string {
    match g
    case Start => ""
    case Touching => ""
    case Blank => " "
    case LineBreak => "\n"
    case Paragraph => "\n\n"
  }

  /** The visible characters of s with every gap between them reduced to its kind. */
  function Seen(s: string, g: Gap): string {
    if s == "" then ""
    else if IsSpace(s[0]) then Seen(s[1..], Widen(g, s[0]))
    else Mark(g) + [s[0]] + Seen(s[1..], Touching)
  }

  function GapAfter(s: string, g: Gap): Gap {
    if s == "" then g
    else if IsSpace(s[0]) then GapAfter(s[1..], Widen(g, s[0]))
    else GapAfter(s[1..], Touching)
  }

  /** Words in order, and between neighbours whether the gap is a space, a line break or a paragraph break. */
  function Reading(s: string): string {
    Seen(s, Start)
  }

  lemma {:induction false} SeenConcat(a: string, b: string, g: Gap)
    ensures Seen(a + b, g) == Seen(a, g) + Seen(b, GapAfter(a, g))
    ensures GapAfter(a + b, g) == GapAfter(b, GapAfter(a, g))
  {
    if a == "" {
      assert a + b == b;
    } else {
      assert (a + b)[1..] == a[1..] + b;
      SeenConcat(a[1..], b, if IsSpace(a[0]) then Widen(g, a[0]) else Touching);
    }
  }

  lemma SeenNext(c: char, rest: string, g: Gap)
    ensures Seen([c] + rest, g) == if IsSpace(c) then Seen(rest, Widen(g, c)) else Mark(g) + [c] + Seen(rest, Touching)
    ensures GapAfter([c] + rest, g) == GapAfter(rest, if IsSpace(c) then Widen(g, c) else Touching)
  {
    assert ([c] + rest)[1..] == rest;
  }

  lemma BlankTwice(g: Gap, c: char, d: char)
    requires IsBlank(c) && IsBlank(d)
    ensures Widen(Widen(g, c), d) == Widen(g, d) && Widen(g, c) == Widen(g, ' ')
  {
  }

  lemma {:induction false} CollapseKeepsReading(s: string, g: Gap)
    ensures Seen(Collapse(s), g) == Seen(s, g) && GapAfter(Collapse(s), g) == GapAfter(s, g)
  {
    if s != "" {
      var head, rest := s[0], s[1..];
      assert s == [head] + rest;
      SeenNext(head, rest, g);
      if !IsBlank(head) {
        CollapseKeepsReading(rest, if IsSpace(head) then Widen(g, head) else Touching);
        SeenNext(head, Collapse(rest), g);
      } else if rest != "" && IsBlank(rest[0]) {
        CollapseKeepsReading(rest, g);
        assert rest == [rest[0]] + rest[1..];
        SeenNext(rest[0], rest[1..], g);
        SeenNext(rest[0], rest[1..], Widen(g, head));
        BlankTwice(g, head, rest[0]);
      } else {
        CollapseKeepsReading(rest, Widen(g, ' '));
        BlankTwice(g, head, head);
        SeenNext(' ', Collapse(rest), g);
      }
    }
  }

  lemma {:induction false} SpacesAreUnseen(s: string, g: Gap)
    requires AllSpace(s)
    ensures Seen(s, g) == ""
    ensures g == Start ==> GapAfter(s, g) == Start
  {
    if s != "" {
      SpacesAreUnseen(s[1..], Widen(g, s[0]));
    }
  }

  lemma {:induction false} SpacesBeforeBreak(s: string, g: Gap)
    requires forall i :: 0 <= i < |s| ==> s[i] == ' '
    ensures Widen(GapAfter(s, g), '\n') == Widen(g, '\n')
  {
    if s != "" {
      SpacesBeforeBreak(s[1..], Widen(g, ' '));
    }
  }

  lemma CleanLineKeepsReading(line: string, g: Gap)
    ensures Seen(CleanLine(line), g) == Seen(line, g)
    ensures Widen(GapAfter(CleanLine(line), g), '\n') == Widen(GapAfter(line, g), '\n')
  {
    var c := Collapse(line);
    var t := CleanLine(line);
    var spaces := c[|t|..];
    CollapseKeepsReading(line, g);
    assert c == t + spaces;
    SeenConcat(t, spaces, g);
    SpacesAreUnseen(spaces, GapAfter(t, g));
    SpacesBeforeBreak(spaces, GapAfter(t, g));
  }

  lemma {:induction false} JoinKeepsReading(lines: seq<string>, g: Gap)
    ensures Seen(Join(CleanLines(lines)), g) == Seen(Join(lines), g)
  {
    if lines != [] {
      var head, cleaned := lines[0], CleanLine(lines[0]);
      CleanLineKeepsReading(head, g);
      if |lines| > 1 {
        var rest, restCleaned := Join(lines[1..]), Join(CleanLines(lines[1..]));
        assert CleanLines(lines)[1..] == CleanLines(lines[1..]);
        var after := Widen(GapAfter(head, g), '\n');
        JoinKeepsReading(lines[1..], after);
        SeenConcat(head, "\n" + rest, g);
        SeenConcat(cleaned, "\n" + restCleaned, g);
        assert ("\n" + rest)[1..] == rest && ("\n" + restCleaned)[1..] == restCleaned;
      }
    }
  }

  lemma {:induction false} SqueezeKeepsReading(s: string, g: Gap)
    ensures Seen(Squeeze(s), g) == Seen(s, g)
  {
    if s != "" {
      if |s| >= 3 && s[0] == s[1] == s[2] == '\n' {
        SqueezeKeepsReading(s[1..], g);
        assert s[1..][1..] == s[2..] && s[2..][1..] == s[3..];
        assert Seen(s[1..], Widen(g, '\n')) == Seen(s[3..], Widen(Widen(Widen(g, '\n'), '\n'), '\n')) == Seen(s[1..], g);
      } else {
        SqueezeKeepsReading(s[1..], if IsSpace(s[0]) then Widen(g, s[0]) else Touching);
        assert ([s[0]] + Squeeze(s[1..]))[1..] == Squeeze(s[1..]);
      }
    }
  }

  /** No word is lost, split or merged, and no line or paragraph break between words appears or vanishes. */
  lemma NormalizedKeepsReading(s: string)
    ensures Reading(Normalized(s)) == Reading(s)
  {
    var joined := Join(CleanLines(Split(s)));
    JoinSplit(s);
    JoinKeepsReading(Split(s), Start);
    SqueezeKeepsReading(joined, Start);
    var before, after := TrimSpaceCuts(Squeeze(joined));
    var t := Normalized(s);
    SeenConcat(before, t + after, Start);
    SpacesAreUnseen(before, Start);
    SeenConcat(t, after, Start);
    SpacesAreUnseen(after, GapAfter(t, Start));
  }
}
