/** Splitting text into lines and trimming it, as Go's strings package does. */
module Lines {

  function Split(s: string): (lines: seq<string>)
    ensures |lines| >= 1
    ensures forall i :: 0 <= i < |lines| ==> '\n' !in lines[i]
  {
    if s == "" then [""]
    else
      var rest := Split(s[1..]);
      if s[0] == '\n' then [""] + rest else [[s[0]] + rest[0]] + rest[1..]
  }

  function Join(lines: seq<string>): string {
    if lines == [] then ""
    else if |lines| == 1 then lines[0]
    else lines[0] + ("\n" + Join(lines[1..]))
  }

  lemma {:induction false} JoinSplit(s: string)
    ensures Join(Split(s)) == s
  {
    if s != "" {
      var rest := Split(s[1..]);
      JoinSplit(s[1..]);
      if s[0] == '\n' {
        assert Split(s)[1..] == rest;
      } else {
        assert Split(s)[1..] == rest[1..];
        if |rest| > 1 {
          assert Join(Split(s)) == ([s[0]] + rest[0]) + ("\n" + Join(rest[1..]));
          assert Join(rest) == rest[0] + ("\n" + Join(rest[1..]));
        }
      }
    }
  }

  lemma {:induction false} SplitWithoutNewline(s: string)
    requires '\n' !in s
    ensures Split(s) == [s]
  {
    if s != "" {
      SplitWithoutNewline(s[1..]);
      assert s == [s[0]] + s[1..];
    }
  }

  lemma {:induction false} SplitAtNewline(a: string, b: string)
    requires '\n' !in a
    ensures Split(a + ("\n" + b)) == [a] + Split(b)
  {
    var s := a + ("\n" + b);
    if a == "" {
      assert s[1..] == b;
    } else {
      assert s[0] == a[0] && s[1..] == a[1..] + ("\n" + b);
      SplitAtNewline(a[1..], b);
      assert Split(s[1..]) == [a[1..]] + Split(b);
      assert [a[0]] + a[1..] == a && ([a[1..]] + Split(b))[1..] == Split(b);
    }
  }

  lemma {:induction false} SplitJoin(lines: seq<string>)
    requires lines != [] && forall i :: 0 <= i < |lines| ==> '\n' !in lines[i]
    ensures Split(Join(lines)) == lines
  {
    if |lines| == 1 {
      SplitWithoutNewline(lines[0]);
    } else {
      SplitAtNewline(lines[0], Join(lines[1..]));
      SplitJoin(lines[1..]);
    }
  }

  /** unicode.IsSpace */
  predicate IsSpace(c: char) {
    || '\t' <= c <= '\r' || c == ' ' || c == '\U{85}' || c == '\U{A0}' || c == '\U{1680}'
    || '\U{2000}' <= c <= '\U{200A}' || c == '\U{2028}' || c == '\U{2029}' || c == '\U{202F}'
    || c == '\U{205F}' || c == '\U{3000}'
  }

  /** The code points of the White_Space property. */
  lemma SpacesAre(c: char)
    ensures IsSpace(c) <==>
            var n := c as int;
            || 9 <= n <= 13 || n == 32 || n == 133 || n == 160 || n == 5760
            || 8192 <= n <= 8202 || n == 8232 || n == 8233 || n == 8239 || n == 8287 || n == 12288
  {
  }

  /** strings.TrimRight for one cut set. */
  function TrimRight(s: string, cut: set<char>): (r: string)
    ensures r <= s
    ensures forall i :: |r| <= i < |s| ==> s[i] in cut
    ensures r != "" ==> r[|r| - 1] !in cut
  {
    if s != "" && s[|s| - 1] in cut then TrimRight(s[..|s| - 1], cut) else s
  }

  /** strings.TrimLeft for one cut set. */
  function TrimLeft(s: string, cut: set<char>): (r: string)
    ensures |r| <= |s| && r == s[|s| - |r|..]
    ensures r != "" ==> r[0] !in cut
  {
    if s != "" && s[0] in cut then TrimLeft(s[1..], cut) else s
  }

  lemma PartOf(s: string, left: string, r: string)
    requires |left| <= |s| && left == s[|s| - |left|..] && r <= left
    ensures forall c :: c in r ==> c in s
  {
  }

  /** strings.Trim */
  function Trim(s: string, cut: set<char>): (r: string)
    ensures |r| <= |s|
    ensures r != "" ==> r[0] !in cut && r[|r| - 1] !in cut
    ensures forall c :: c in r ==> c in s
  {
    var left := TrimLeft(s, cut);
    PartOf(s, left, TrimRight(left, cut));
    TrimRight(left, cut)
  }

  predicate AllIn(s: string, cut: set<char>) {
    forall i :: 0 <= i < |s| ==> s[i] in cut
  }

  lemma AllInTail(s: string, cut: set<char>)
    requires s != "" && AllIn(s, cut)
    ensures AllIn(s[1..], cut) && AllIn(s[..|s| - 1], cut)
  {
  }

  /** Trim cuts off the longest outer runs of the cut set: what stands between is kept as it is. */
  lemma TrimIs(before: string, middle: string, after: string, cut: set<char>)
    requires AllIn(before, cut) && AllIn(after, cut)
    requires middle != "" && middle[0] !in cut && middle[|middle| - 1] !in cut
    ensures Trim(before + middle + after, cut) == middle
  {
    assert before + middle + after == before + (middle + after);
    TrimLeftIs(before, middle + after, cut);
    TrimRightIs(middle, after, cut);
  }

  lemma {:induction false} TrimLeftIs(before: string, rest: string, cut: set<char>)
    requires AllIn(before, cut) && rest != "" && rest[0] !in cut
    ensures TrimLeft(before + rest, cut) == rest
  {
    if before == "" {
      assert before + rest == rest;
    } else {
      assert (before + rest)[1..] == before[1..] + rest;
      AllInTail(before, cut);
      TrimLeftIs(before[1..], rest, cut);
    }
  }

  lemma {:induction false} TrimRightIs(front: string, after: string, cut: set<char>)
    requires AllIn(after, cut) && front != "" && front[|front| - 1] !in cut
    ensures TrimRight(front + after, cut) == front
  {
    if after == "" {
      assert front + after == front;
    } else {
      assert (front + after)[..|front + after| - 1] == front + after[..|after| - 1];
      AllInTail(after, cut);
      TrimRightIs(front, after[..|after| - 1], cut);
    }
  }

  lemma {:induction false} TrimmedAway(s: string, cut: set<char>)
    requires AllIn(s, cut)
    ensures Trim(s, cut) == ""
  {
    if s != "" {
      AllInTail(s, cut);
      TrimmedAway(s[1..], cut);
    }
  }

  predicate AllSpace(s: string) {
    forall i :: 0 <= i < |s| ==> IsSpace(s[i])
  }

  predicate Trimmed(s: string) {
    s != "" ==> !IsSpace(s[0]) && !IsSpace(s[|s| - 1])
  }

  function TrimLeftSpace(s: string): (r: string)
    ensures |r| <= |s|
    ensures r != "" ==> !IsSpace(r[0]) && s[|s| - 1] == r[|r| - 1]
  {
    if s != "" && IsSpace(s[0]) then TrimLeftSpace(s[1..]) else s
  }

  function TrimRightSpace(s: string): (r: string)
    ensures r <= s
    ensures r != "" ==> !IsSpace(r[|r| - 1])
  {
    if s != "" && IsSpace(s[|s| - 1]) then TrimRightSpace(s[..|s| - 1]) else s
  }

  /** strings.TrimSpace: the text between the outer white space. */
  function TrimSpace(s: string): (r: string)
    ensures Trimmed(r) && |r| <= |s|
    ensures Trimmed(s) ==> r == s
  {
    TrimRightSpace(TrimLeftSpace(s))
  }

  lemma {:induction false} TrimLeftCuts(s: string) returns (before: string)
    ensures s == before + TrimLeftSpace(s) && AllSpace(before)
  {
    if s != "" && IsSpace(s[0]) {
      before := TrimLeftCuts(s[1..]);
      before := [s[0]] + before;
      assert s == [s[0]] + s[1..];
    } else {
      before := "";
    }
  }

  lemma {:induction false} TrimRightCuts(s: string) returns (after: string)
    ensures s == TrimRightSpace(s) + after && AllSpace(after)
  {
    if s != "" && IsSpace(s[|s| - 1]) {
      after := TrimRightCuts(s[..|s| - 1]);
      after := after + [s[|s| - 1]];
      assert s == s[..|s| - 1] + [s[|s| - 1]];
    } else {
      after := "";
    }
  }

  /** What TrimSpace removes is white space on either side. */
  lemma TrimSpaceCuts(s: string) returns (before: string, after: string)
    ensures s == before + (TrimSpace(s) + after)
    ensures AllSpace(before) && AllSpace(after)
  {
    before := TrimLeftCuts(s);
    after := TrimRightCuts(TrimLeftSpace(s));
  }

  // ----- trimming joined lines

  lemma {:induction false} TrimLeftOver(a: string, b: string)
    ensures AllSpace(a) ==> TrimLeftSpace(a + b) == TrimLeftSpace(b)
    ensures !AllSpace(a) ==> TrimLeftSpace(a + b) == TrimLeftSpace(a) + b && TrimLeftSpace(a) != ""
  {
    if a == "" {
      assert a + b == b;
    } else {
      assert (a + b)[0] == a[0] && (a + b)[1..] == a[1..] + b;
      TrimLeftOver(a[1..], b);
      assert AllSpace(a) <==> IsSpace(a[0]) && AllSpace(a[1..]);
    }
  }

  lemma {:induction false} TrimRightOver(a: string, b: string)
    ensures AllSpace(b) ==> TrimRightSpace(a + b) == TrimRightSpace(a)
    ensures !AllSpace(b) ==> TrimRightSpace(a + b) == a + TrimRightSpace(b) && TrimRightSpace(b) != ""
  {
    if b == "" {
      assert a + b == a;
    } else {
      var last := |b| - 1;
      assert (a + b)[|a + b| - 1] == b[last] && (a + b)[..|a + b| - 1] == a + b[..last];
      TrimRightOver(a, b[..last]);
      assert AllSpace(b) <==> IsSpace(b[last]) && AllSpace(b[..last]);
    }
  }

  lemma {:induction false} JoinLast(lines: seq<string>)
    requires |lines| > 1
    ensures Join(lines) == Join(lines[..|lines| - 1]) + ("\n" + lines[|lines| - 1])
  {
    var last := |lines| - 1;
    if last > 1 {
      JoinLast(lines[1..]);
      assert lines[1..][..last - 1] == lines[..last][1..];
      assert Join(lines) == lines[0] + ("\n" + (Join(lines[1..][..last - 1]) + ("\n" + lines[last])));
    }
  }

  lemma SpaceLineFirst(a: string, b: string)
    requires AllSpace(a)
    ensures TrimLeftSpace(a + ("\n" + b)) == TrimLeftSpace(b)
  {
    TrimLeftOver(a, "\n" + b);
    TrimLeftOver("\n", b);
  }

  lemma SpaceLineLast(a: string, b: string)
    requires AllSpace(b)
    ensures TrimRightSpace(a + ("\n" + b)) == TrimRightSpace(a)
  {
    assert a + ("\n" + b) == (a + "\n") + b;
    TrimRightOver(a + "\n", b);
    TrimRightOver(a, "\n");
  }

  lemma TextLineLast(a: string, b: string)
    requires !AllSpace(b)
    ensures TrimRightSpace(a + ("\n" + b)) == a + ("\n" + TrimRightSpace(b))
  {
    assert a + ("\n" + b) == (a + "\n") + b;
    TrimRightOver(a + "\n", b);
  }

  /** Line a is the first with a visible character. */
  predicate StartsAt(lines: seq<string>, a: nat) {
    a < |lines| && !AllSpace(lines[a]) && forall i :: 0 <= i < a ==> AllSpace(lines[i])
  }

  /** Line b is the last with a visible character. */
  predicate EndsAt(lines: seq<string>, b: nat) {
    b < |lines| && !AllSpace(lines[b]) && forall i :: b < i < |lines| ==> AllSpace(lines[i])
  }

  lemma {:induction false} FirstVisible(lines: seq<string>, i: nat) returns (a: nat)
    requires i < |lines| && !AllSpace(lines[i])
    ensures a <= i && StartsAt(lines, a)
  {
    a := i;
    if j :| 0 <= j < i && !AllSpace(lines[j]) {
      a := FirstVisible(lines, j);
    }
  }

  lemma {:induction false} LastVisible(lines: seq<string>, i: nat) returns (b: nat)
    requires i < |lines| && !AllSpace(lines[i])
    ensures i <= b && EndsAt(lines, b)
    decreases |lines| - i
  {
    b := i;
    if j :| i < j < |lines| && !AllSpace(lines[j]) {
      b := LastVisible(lines, j);
    }
  }

  lemma {:induction false} TrimLeftJoin(lines: seq<string>, a: nat)
    requires StartsAt(lines, a)
    ensures TrimLeftSpace(Join(lines)) == Join([TrimLeftSpace(lines[a])] + lines[a + 1..])
    decreases a
  {
    if a == 0 {
      var cut := [TrimLeftSpace(lines[0])] + lines[1..];
      assert cut[1..] == lines[1..];
      if |lines| > 1 {
        TrimLeftOver(lines[0], "\n" + Join(lines[1..]));
      }
    } else {
      SpaceLineFirst(lines[0], Join(lines[1..]));
      TrimLeftJoin(lines[1..], a - 1);
      assert lines[1..][a - 1] == lines[a] && lines[1..][a..] == lines[a + 1..];
    }
  }

  lemma LastOfLinesTrimmed(lines: seq<string>)
    requires |lines| > 1 && !AllSpace(lines[|lines| - 1])
    ensures var last := |lines| - 1;
      TrimRightSpace(Join(lines)) == Join(lines[..last] + [TrimRightSpace(lines[last])])
  {
    var last := |lines| - 1;
    var cut := lines[..last] + [TrimRightSpace(lines[last])];
    JoinLast(lines);
    TextLineLast(Join(lines[..last]), lines[last]);
    JoinLast(cut);
    assert cut[..last] == lines[..last];
  }

  lemma LastLineDropped(lines: seq<string>)
    requires |lines| > 1 && AllSpace(lines[|lines| - 1])
    ensures TrimRightSpace(Join(lines)) == TrimRightSpace(Join(lines[..|lines| - 1]))
  {
    JoinLast(lines);
    SpaceLineLast(Join(lines[..|lines| - 1]), lines[|lines| - 1]);
  }

  lemma EndsAtFront(lines: seq<string>, b: nat)
    requires EndsAt(lines, b) && b < |lines| - 1
    ensures EndsAt(lines[..|lines| - 1], b) && AllSpace(lines[|lines| - 1])
    ensures lines[..|lines| - 1][..b] == lines[..b] && lines[..|lines| - 1][b] == lines[b]
  {
  }

  lemma {:induction false} TrimRightJoin(lines: seq<string>, b: nat)
    requires EndsAt(lines, b)
    ensures TrimRightSpace(Join(lines)) == Join(lines[..b] + [TrimRightSpace(lines[b])])
    decreases |lines|
  {
    var last := |lines| - 1;
    if |lines| == 1 {
      assert lines[..0] + [TrimRightSpace(lines[0])] == [TrimRightSpace(lines[0])];
    } else if b < last {
      EndsAtFront(lines, b);
      LastLineDropped(lines);
      TrimRightJoin(lines[..last], b);
    } else {
      LastOfLinesTrimmed(lines);
    }
  }

  /** Lines a to b with the outer white space of that span cut off. */
  function Span(lines: seq<string>, a: nat, b: nat): seq<string>
    requires a <= b < |lines|
  {
    if a == b then [TrimSpace(lines[a])]
    else [TrimLeftSpace(lines[a])] + lines[a + 1..b] + [TrimRightSpace(lines[b])]
  }

  lemma TrimLeftShows(s: string)
    requires !AllSpace(s)
    ensures !AllSpace(TrimLeftSpace(s)) && TrimLeftSpace(s) != ""
  {
    TrimLeftOver(s, "");
    assert s + "" == s;
    assert !IsSpace(TrimLeftSpace(s)[0]);
  }

  lemma SpanOfCut(lines: seq<string>, a: nat, b: nat)
    requires a <= b < |lines|
    ensures var cut := [TrimLeftSpace(lines[a])] + lines[a + 1..];
      b - a < |cut| && cut[..b - a] + [TrimRightSpace(cut[b - a])] == Span(lines, a, b)
  {
    var cut := [TrimLeftSpace(lines[a])] + lines[a + 1..];
    if a < b {
      assert cut[b - a] == lines[b];
      assert cut[..b - a] == [TrimLeftSpace(lines[a])] + lines[a + 1..b];
    }
  }

  lemma TrimRightOfCut(lines: seq<string>, a: nat, b: nat)
    requires StartsAt(lines, a) && EndsAt(lines, b) && a <= b
    ensures TrimRightSpace(Join([TrimLeftSpace(lines[a])] + lines[a + 1..])) == Join(Span(lines, a, b))
  {
    var cut := [TrimLeftSpace(lines[a])] + lines[a + 1..];
    TrimLeftShows(lines[a]);
    assert EndsAt(cut, b - a);
    TrimRightJoin(cut, b - a);
    SpanOfCut(lines, a, b);
  }

  /** TrimSpace on joined lines trims the first and last visible line and drops the rest outside. */
  lemma TrimSpanJoin(lines: seq<string>, a: nat, b: nat)
    requires StartsAt(lines, a) && EndsAt(lines, b) && a <= b
    ensures TrimSpace(Join(lines)) == Join(Span(lines, a, b))
  {
    TrimLeftJoin(lines, a);
    TrimRightOfCut(lines, a, b);
  }

  lemma {:induction false} InvisibleJoin(lines: seq<string>)
    requires forall i :: 0 <= i < |lines| ==> AllSpace(lines[i])
    ensures AllSpace(Join(lines)) && TrimSpace(Join(lines)) == ""
  {
    if |lines| > 1 {
      InvisibleJoin(lines[1..]);
    }
    TrimLeftOver(Join(lines), "");
    assert Join(lines) + "" == Join(lines);
  }
}
