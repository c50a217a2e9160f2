/** How a branch name binds its governing Issue: the glob the mint checks against
    the expression admission derives the Issue with. */
module BranchBinding {
  import opened GrantDocument
  import opened ScopeEntries
  import opened Text

  const PLACEHOLDER := "{issue}"

  function ReplaceAll(s: string, part: string, value: string): string
    requires part != []
    decreases |s|
  {
    if s == [] then []
    else if part <= s then value + ReplaceAll(s[|part|..], part, value)
    else [s[0]] + ReplaceAll(s[1..], part, value)
  }

  /** A template: a literal prefix, the placeholder, a literal, and a star. */
  datatype Template = Template(prefix: string, tail: string)

  function Pattern(t: Template): string {
    t.prefix + PLACEHOLDER + t.tail + "*"
  }

  predicate NoBrace(s: string) {
    forall i :: 0 <= i < |s| ==> s[i] != '{'
  }

  /** Literal text around the placeholder, and the placeholder once. */
  predicate LiteralTemplate(t: Template) {
    Literal(t.prefix) && Literal(t.tail) && NoBrace(t.prefix) && NoBrace(t.tail)
  }

  /** The mint's check of a branch against the pattern for one Issue. */
  predicate MintAccepts(t: Template, issue: string, branch: string) {
    Glob(branch, ReplaceAll(Pattern(t), PLACEHOLDER, issue))
  }

  predicate OneLine(s: string) {
    forall i :: 0 <= i < |s| ==> s[i] != '\n'
  }

  /** The expression matches with a group of `k` characters. */
  predicate GroupFits(t: Template, rest: string, k: nat) {
    k <= |rest| && IssueForm(rest[..k]) && t.tail <= rest[k..] && OneLine(rest[k + |t.tail|..])
  }

  /** The longest group that fits, from `k` characters down. */
  function LongestGroup(t: Template, rest: string, k: nat): (r: Option<string>)
    ensures r.Some? ==> exists j: nat :: j <= k && GroupFits(t, rest, j) && rest[..j] == r.value
    ensures r.None? ==> forall j: nat :: j <= k ==> !GroupFits(t, rest, j)
  {
    if GroupFits(t, rest, k) then Some(rest[..k])
    else if k == 0 then None
    else LongestGroup(t, rest, k - 1)
  }

  /** `issue_for_branch`: the greedy group of one to ten digits, with backtracking. */
  function IssueForBranch(t: Template, branch: string): Option<string> {
    if t.prefix <= branch then LongestGroup(t, branch[|t.prefix|..], 10) else None
  }

  // ------------------------------------------------------------- the mint side

  lemma {:induction false} ReplaceLiteral(s: string, part: string, value: string)
    requires part != [] && part[0] == '{' && NoBrace(s)
    ensures ReplaceAll(s, part, value) == s
  {
    if s != [] {
      ReplaceLiteral(s[1..], part, value);
    }
  }

  lemma ReplaceHead(part: string, rest: string, value: string)
    requires part != []
    ensures ReplaceAll(part + rest, part, value) == value + ReplaceAll(rest, part, value)
  {
    assert part <= part + rest && (part + rest)[|part|..] == rest;
  }

  lemma ReplaceSkip(c: char, s: string, part: string, value: string)
    requires part != [] && part[0] != c
    ensures ReplaceAll([c] + s, part, value) == [c] + ReplaceAll(s, part, value)
  {
    assert !(part <= [c] + s) && ([c] + s)[1..] == s;
  }

  lemma {:induction false} ReplaceOnce(prefix: string, part: string, rest: string, value: string)
    requires part != [] && part[0] == '{' && NoBrace(prefix) && NoBrace(rest)
    ensures ReplaceAll(prefix + (part + rest), part, value) == prefix + (value + rest)
  {
    hide ReplaceAll;
    if prefix == [] {
      assert prefix + (part + rest) == part + rest && prefix + (value + rest) == value + rest;
      ReplaceHead(part, rest, value);
      ReplaceLiteral(rest, part, value);
    } else {
      assert prefix + (part + rest) == [prefix[0]] + (prefix[1..] + (part + rest));
      ReplaceSkip(prefix[0], prefix[1..] + (part + rest), part, value);
      ReplaceOnce(prefix[1..], part, rest, value);
      assert prefix + (value + rest) == [prefix[0]] + (prefix[1..] + (value + rest));
    }
  }

  /** The mint accepts a branch for an Issue exactly when it starts with the
      prefix, the number and the literal behind it. */
  lemma MintMeans(t: Template, issue: string, branch: string)
    requires LiteralTemplate(t) && IssueForm(issue)
    ensures MintAccepts(t, issue, branch) <==> t.prefix + issue + t.tail <= branch
  {
    hide ReplaceAll, Glob;
    var rest := t.tail + "*";
    assert Pattern(t) == t.prefix + (PLACEHOLDER + rest);
    assert PLACEHOLDER[0] == '{';
    ReplaceOnce(t.prefix, PLACEHOLDER, rest, issue);
    assert t.prefix + (issue + rest) == (t.prefix + issue + t.tail) + "*";
    GlobStem(branch, t.prefix + issue + t.tail, "*");
  }

  // --------------------------------------------------------------- agreement

  /** A shift by `p` digits maps the literal onto itself. */
  predicate Repeats(tail: string, p: nat) {
    && (forall i :: 0 <= i < p && i < |tail| ==> IsDigit(tail[i]))
    && forall i :: p <= i < |tail| ==> tail[i] == tail[i - p]
  }

  /** No shift by one to nine digits does: the end of the number can be told. */
  predicate Separates(tail: string) {
    forall p :: 1 <= p <= 9 ==> !Repeats(tail, p)
  }

  /** A literal with any character that is not a digit separates. */
  lemma NonDigitSeparates(tail: string)
    requires !AllDigits(tail)
    ensures Separates(tail)
  {
    forall p: nat | 1 <= p <= 9 ensures !Repeats(tail, p) {
      if Repeats(tail, p) {
        RepeatsDigits(tail, p, |tail|);
      }
    }
  }

  lemma {:induction false} RepeatsDigits(tail: string, p: nat, n: nat)
    requires p >= 1 && Repeats(tail, p) && n <= |tail|
    ensures AllDigits(tail[..n])
  {
    if n > 0 {
      RepeatsDigits(tail, p, n - 1);
      if n - 1 >= p {
        assert tail[n - 1] == tail[n - 1 - p] == tail[..n - 1][n - 1 - p];
      }
      assert tail[..n] == tail[..n - 1] + [tail[n - 1]];
    }
  }

  lemma Shifted(tail: string, rest: string, j: nat, k: nat)
    requires j < k <= |rest| && AllDigits(rest[..k])
    requires tail <= rest[j..] && tail <= rest[k..]
    ensures Repeats(tail, k - j)
  {
    forall i | 0 <= i < |tail| ensures i < k - j ==> IsDigit(tail[i]) {
      assert tail[i] == rest[j..][i] == rest[j + i];
      if i < k - j {
        assert rest[j + i] == rest[..k][j + i];
      }
    }
    forall i | k - j <= i < |tail| ensures tail[i] == tail[i - (k - j)] {
      assert tail[i] == rest[j..][i] == rest[j + i];
      assert tail[i - (k - j)] == rest[k..][i - (k - j)] == rest[j + i];
    }
  }

  /** With a separating literal a branch fits at most one Issue. */
  lemma OneIssue(t: Template, branch: string, n: string, m: string)
    requires Separates(t.tail) && IssueForm(n) && IssueForm(m)
    requires t.prefix + n + t.tail <= branch && t.prefix + m + t.tail <= branch
    ensures n == m
  {
    var rest := branch[|t.prefix|..];
    FitsAt(t, branch, n);
    FitsAt(t, branch, m);
    if |n| < |m| {
      Shifted(t.tail, rest, |n|, |m|);
    } else if |m| < |n| {
      Shifted(t.tail, rest, |m|, |n|);
    }
  }

  lemma FitsAt(t: Template, branch: string, n: string)
    requires t.prefix + n + t.tail <= branch
    ensures var rest := branch[|t.prefix|..];
            |n| <= |rest| && rest[..|n|] == n && t.tail <= rest[|n|..]
  {
    var rest := branch[|t.prefix|..];
    assert branch[..|t.prefix + n + t.tail|] == t.prefix + n + t.tail;
    assert rest[..|n + t.tail|] == n + t.tail;
    assert rest[..|n|] == (n + t.tail)[..|n|] == n;
    assert rest[|n|..][..|t.tail|] == (n + t.tail)[|n|..] == t.tail;
  }

  lemma FitsBack(t: Template, branch: string, k: nat)
    requires t.prefix <= branch && k <= |branch| - |t.prefix|
    requires t.tail <= branch[|t.prefix|..][k..]
    ensures t.prefix + branch[|t.prefix|..][..k] + t.tail <= branch
  {
    var whole := t.prefix + branch[|t.prefix|..][..k] + t.tail;
    forall i | 0 <= i < |whole| ensures branch[i] == whole[i] {
      if i >= |t.prefix| + k {
        assert branch[|t.prefix|..][k..][i - |t.prefix| - k] == branch[i];
      }
    }
  }

  /** Mint and admission agree on this branch: it is accepted for an Issue exactly
      when that is the Issue derived from it. */
  ghost predicate Agree(t: Template, branch: string) {
    forall n :: IssueForm(n) ==> (MintAccepts(t, n, branch) <==> IssueForBranch(t, branch) == Some(n))
  }

  lemma SeparatedAgree(t: Template, branch: string)
    requires LiteralTemplate(t) && Separates(t.tail) && OneLine(branch)
    ensures Agree(t, branch)
  {
    hide MintAccepts, IssueForm, Separates, Literal, LiteralTemplate;
    forall n | IssueForm(n) ensures MintAccepts(t, n, branch) <==> IssueForBranch(t, branch) == Some(n) {
      MintMeans(t, n, branch);
      if IssueForBranch(t, branch) == Some(n) {
        var rest := branch[|t.prefix|..];
        var k: nat :| k <= 10 && GroupFits(t, rest, k) && rest[..k] == n;
        FitsBack(t, branch, k);
      }
      if t.prefix + n + t.tail <= branch {
        DerivedFrom(t, branch, n);
      }
    }
  }

  lemma DerivedFrom(t: Template, branch: string, n: string)
    requires LiteralTemplate(t) && Separates(t.tail) && OneLine(branch) && IssueForm(n)
    requires t.prefix + n + t.tail <= branch
    ensures IssueForBranch(t, branch) == Some(n)
  {
    hide IssueForm, Separates, Literal, LiteralTemplate;
    var rest := branch[|t.prefix|..];
    FitsAt(t, branch, n);
    assert |n| <= 10 by { IssueShort(n); }
    assert GroupFits(t, rest, |n|);
    assert t.prefix <= branch;
    var found := LongestGroup(t, rest, 10);
    var k: nat :| k <= 10 && GroupFits(t, rest, k) && rest[..k] == found.value;
    FitsBack(t, branch, k);
    OneIssue(t, branch, n, found.value);
  }

  lemma IssueShort(n: string)
    requires IssueForm(n)
    ensures 1 <= |n| <= 10
  {
  }

  lemma {:induction false} ShiftedBack(tail: string, digits: string)
    requires Repeats(tail, |digits|) && forall i :: 0 <= i < |digits| && i < |tail| ==> digits[i] == tail[i]
    ensures tail <= digits + tail
  {
    assert forall i :: 0 <= i < |tail| ==> (digits + tail)[i] == if i < |digits| then digits[i] else tail[i - |digits|];
  }

  /** Where a shift maps the literal onto itself there is a branch both the Issue
      `1` and a longer number fit. */
  lemma Ambiguous(t: Template, p: nat) returns (branch: string, longer: string)
    requires LiteralTemplate(t) && 1 <= p <= 9 && Repeats(t.tail, p) && OneLine(t.prefix)
    ensures OneLine(branch) && IssueForm("1") && IssueForm(longer) && longer != "1"
    ensures MintAccepts(t, "1", branch) && MintAccepts(t, longer, branch)
  {
    hide MintAccepts, Literal, LiteralTemplate;
    var tail := t.tail;
    var digits := if p <= |tail| then tail[..p] else tail + Zeros(p - |tail|);
    assert forall i :: 0 <= i < p ==> digits[i] == if i < |tail| then tail[i] else '0';
    longer := "1" + digits;
    branch := t.prefix + longer + tail;
    RepeatsDigits(tail, p, |tail|);
    assert tail[..|tail|] == tail;
    ShiftedBack(tail, digits);
    assert t.prefix + "1" + tail <= branch by {
      assert branch == t.prefix + "1" + (digits + tail);
    }
    MintMeans(t, "1", branch);
    MintMeans(t, longer, branch);
  }

  /** Mint and admission agree on every branch name exactly when the literal
      behind the number separates. */
  lemma AgreeExactly(t: Template)
    requires LiteralTemplate(t) && OneLine(t.prefix)
    ensures (forall branch :: OneLine(branch) ==> Agree(t, branch)) <==> Separates(t.tail)
  {
    hide LiteralTemplate, MintAccepts, IssueForm, Repeats, IssueForBranch;
    if Separates(t.tail) {
      forall branch | OneLine(branch) ensures Agree(t, branch) {
        SeparatedAgree(t, branch);
      }
    } else {
      var p: nat :| 1 <= p <= 9 && Repeats(t.tail, p);
      var branch, longer := Ambiguous(t, p);
      assert !Agree(t, branch);
    }
  }

  /** The repository's own template, `connector/issue-{issue}-*`, is of that kind. */
  lemma RepositoryTemplateAgrees(branch: string)
    requires OneLine(branch)
    ensures Agree(Template("connector/issue-", "-"), branch)
  {
    var t := Template("connector/issue-", "-");
    assert !IsDigit(t.tail[0]);
    NonDigitSeparates(t.tail);
    SeparatedAgree(t, branch);
  }
}
