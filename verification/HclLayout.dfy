/** White space and comments: exactly what the parser skips. */
module HclLayout {
  import opened HclSpec

  /* ----- Text standing at a position ----- */

  ghost predicate StandsAt(text: string, pos: nat, s: string)
    decreases |s|
  {
    if s == "" then pos <= |text| else At(text, pos, s[0]) && StandsAt(text, pos + 1, s[1..])
  }

  lemma {:induction false} StandsSplit(text: string, pos: nat, a: string, b: string)
    requires StandsAt(text, pos, a + b)
    ensures StandsAt(text, pos, a) && StandsAt(text, pos + |a|, b)
    decreases |a|
  {
    if a == "" {
      assert a + b == b;
      StandsSlice(text, pos, b);
    } else {
      assert (a + b)[1..] == a[1..] + b;
      StandsSplit(text, pos + 1, a[1..], b);
    }
  }

  lemma {:induction false} StandsChar(text: string, pos: nat, s: string, i: nat)
    requires StandsAt(text, pos, s) && i < |s|
    ensures At(text, pos + i, s[i])
    decreases i
  {
    if i > 0 {
      StandsChar(text, pos + 1, s[1..], i - 1);
    }
  }

  lemma {:induction false} StandsSlice(text: string, pos: nat, s: string)
    requires StandsAt(text, pos, s)
    ensures pos + |s| <= |text| && text[pos..pos + |s|] == s
    decreases |s|
  {
    if s != "" {
      StandsSlice(text, pos + 1, s[1..]);
    }
  }

  lemma {:induction false} WholeStands(text: string, pos: nat)
    requires pos <= |text|
    ensures StandsAt(text, pos, text[pos..])
    decreases |text| - pos
  {
    if pos < |text| {
      WholeStands(text, pos + 1);
      assert text[pos..][1..] == text[pos + 1..];
    }
  }

  /* ----- Scanning what was printed ----- */

  /* ----- White space and comments ----- */

  /** What may stand in front of items, blocks and list elements: white space, and comments up to their line's end. */
  datatype Gap = Blank(c: char) | Remark(text: string)

  predicate GapOk(g: Gap) {
    match g
    case Blank(c) => c in " \t\r\n"
    case Remark(text) => ((text != "" && text[0] == '#') || (|text| > 1 && text[0] == text[1] == '/')) && '\n' !in text
  }

  predicate LeadOk(lead: seq<Gap>) {
    forall i :: 0 <= i < |lead| ==> GapOk(lead[i])
  }

  function PrintGap(g: Gap): string {
    match g
    case Blank(c) => [c]
    case Remark(text) => text + "\n"
  }

  function PrintLead(lead: seq<Gap>): string {
    if lead == [] then [] else PrintGap(lead[0]) + PrintLead(lead[1..])
  }

  /** A comment ends at the first line break, or with the text. */
  lemma {:induction false} CommentEnds(text: string, pos: nat)
    requires pos <= |text|
    ensures var k := SkipComment(text, pos);
            pos <= k <= |text| && '\n' !in text[pos..k] && (k < |text| ==> text[k] == '\n')
    decreases |text| - pos
  {
    if pos < |text| && text[pos] != '\n' {
      CommentEnds(text, pos + 1);
      var k := SkipComment(text, pos);
      assert text[pos..k] == [text[pos]] + text[pos + 1..k];
    }
  }

  lemma {:induction false} RemarkScans(text: string, pos: nat, t: string)
    requires StandsAt(text, pos, t) && '\n' !in t && At(text, pos + |t|, '\n')
    ensures SkipComment(text, pos) == pos + |t|
    decreases |t|
  {
    if t != "" {
      RemarkScans(text, pos + 1, t[1..]);
    }
  }

  lemma GapSkips(text: string, pos: nat, g: Gap)
    requires GapOk(g) && StandsAt(text, pos, PrintGap(g))
    ensures SkipSpace(text, pos) == SkipSpace(text, pos + |PrintGap(g)|)
  {
    match g
    case Blank(c) => StandsChar(text, pos, [c], 0);
    case Remark(t) =>
      StandsSplit(text, pos, t, "\n");
      StandsChar(text, pos + |t|, "\n", 0);
      StandsChar(text, pos, t, 0);
      if t[0] == '/' {
        StandsChar(text, pos, t, 1);
      }
      RemarkScans(text, pos, t);
  }

  /** White space and comments are skipped. */
  lemma {:induction false} LeadSkips(text: string, pos: nat, lead: seq<Gap>)
    requires LeadOk(lead) && StandsAt(text, pos, PrintLead(lead))
    ensures SkipSpace(text, pos) == SkipSpace(text, pos + |PrintLead(lead)|)
    decreases lead
  {
    if lead != [] {
      StandsSplit(text, pos, PrintGap(lead[0]), PrintLead(lead[1..]));
      GapSkips(text, pos, lead[0]);
      LeadSkips(text, pos + |PrintGap(lead[0])|, lead[1..]);
    }
  }

  /** What is skipped from pos on is printed by lead; the last comment may end with the text. */
  ghost predicate IsSkipped(text: string, pos: nat, lead: seq<Gap>)
    requires pos <= |text|
  {
    var p := SkipSpace(text, pos);
    LeadOk(lead) && (text[pos..p] == PrintLead(lead) || (p == |text| && text[pos..] + "\n" == PrintLead(lead)))
  }

  lemma LeadUnfolds(g: Gap, rest: seq<Gap>)
    ensures PrintLead([g] + rest) == PrintGap(g) + PrintLead(rest)
    ensures GapOk(g) && LeadOk(rest) ==> LeadOk([g] + rest)
  {
    assert ([g] + rest)[1..] == rest;
  }

  lemma OneMoreGap(text: string, pos: nat, mid: nat, g: Gap, rest: seq<Gap>)
    requires pos <= mid <= |text| && SkipSpace(text, pos) == SkipSpace(text, mid)
    requires GapOk(g) && PrintGap(g) == text[pos..mid] && IsSkipped(text, mid, rest)
    ensures IsSkipped(text, pos, [g] + rest)
  {
    hide SkipSpace, PrintGap, PrintLead, GapOk, LeadOk;
    LeadUnfolds(g, rest);
    SlicesJoin(text, pos, mid, SkipSpace(text, mid));
  }

  lemma SlicesJoin(text: string, pos: nat, mid: nat, p: nat)
    requires pos <= mid <= p <= |text|
    ensures text[pos..p] == text[pos..mid] + text[mid..p]
    ensures text[pos..] + "\n" == text[pos..mid] + (text[mid..] + "\n")
  {
  }

  lemma BlankIsGap(text: string, pos: nat)
    requires pos < |text| && IsSpace(text[pos])
    ensures PrintGap(Blank(text[pos])) == text[pos..pos + 1] && GapOk(Blank(text[pos]))
    ensures SkipSpace(text, pos) == SkipSpace(text, pos + 1)
  {
  }

  lemma NothingSkipped(text: string, pos: nat)
    requires pos <= |text| && (pos < |text| ==> !IsSpace(text[pos]) && !CommentAt(text, pos))
    ensures IsSkipped(text, pos, [])
  {
    assert text[pos..pos] == "";
  }

  lemma CommentText(text: string, pos: nat) returns (t: string)
    requires CommentAt(text, pos)
    ensures var k := SkipComment(text, pos);
            && pos < k <= |text| && t == text[pos..k] && GapOk(Remark(t))
            && (k < |text| ==> text[k] == '\n')
  {
    var k := SkipComment(text, pos);
    CommentEnds(text, pos);
    t := text[pos..k];
    if text[pos] == '/' {
      assert SkipComment(text, pos + 1) == SkipComment(text, pos + 2);
    }
  }

  lemma CommentIsGap(text: string, pos: nat, k: nat, t: string)
    requires CommentAt(text, pos) && k == SkipComment(text, pos) && pos < k < |text| && text[k] == '\n'
    requires t == text[pos..k]
    ensures PrintGap(Remark(t)) == text[pos..k + 1] && SkipSpace(text, pos) == SkipSpace(text, k + 1)
  {
    assert text[pos..k + 1] == text[pos..k] + [text[k]];
  }

  lemma LastComment(text: string, pos: nat, t: string)
    requires CommentAt(text, pos) && SkipComment(text, pos) == |text| && t == text[pos..] && GapOk(Remark(t))
    ensures IsSkipped(text, pos, [Remark(t)])
  {
    LeadUnfolds(Remark(t), []);
    assert [Remark(t)] + [] == [Remark(t)];
    assert text[pos..|text|] == text[pos..];
  }

  /** Nothing but white space and comments is skipped. */
  lemma {:induction false} OnlyLeadSkipped(text: string, pos: nat) returns (lead: seq<Gap>)
    requires pos <= |text|
    ensures IsSkipped(text, pos, lead)
    decreases |text| - pos
  {
    hide SkipSpace, SkipComment, PrintGap, PrintLead, GapOk, LeadOk, IsSkipped;
    if pos < |text| && IsSpace(text[pos]) {
      BlankIsGap(text, pos);
      var rest := OnlyLeadSkipped(text, pos + 1);
      lead := [Blank(text[pos])] + rest;
      OneMoreGap(text, pos, pos + 1, Blank(text[pos]), rest);
    } else if CommentAt(text, pos) {
      var t := CommentText(text, pos);
      var k := SkipComment(text, pos);
      if k == |text| {
        lead := [Remark(t)];
        assert text[pos..|text|] == text[pos..];
        LastComment(text, pos, t);
      } else {
        var rest := OnlyLeadSkipped(text, k + 1);
        lead := [Remark(t)] + rest;
        CommentIsGap(text, pos, k, t);
        OneMoreGap(text, pos, k + 1, Remark(t), rest);
      }
    } else {
      lead := [];
      NothingSkipped(text, pos);
    }
  }
}
