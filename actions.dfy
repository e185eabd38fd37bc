/** Action planning and execution: `prepareActions`, `runActions` and the
    summary built by `confirmActions`. */
module Actions {
  import opened Wrappers
  import opened Seqs
  import opened Records

  /** The `{ pulls, clones }` object `prepareActions` returns. */
  datatype Plan = Plan(pulls: seq<Repo>, clones: seq<Repo>)

  /** `prepareActions` reads `repo.remote` of an `undefined` entry, which throws
      a TypeError; `index` is the entry's position. */
  datatype PrepareError = UndefinedEntry(index: nat)

  predicate IsClone(r: Repo)
  {
    r.remote
  }

  predicate IsPull(r: Repo)
  {
    !r.remote
  }

  /** The plan for a list with no `undefined` entries: every record goes to
      exactly one list, `clones` when `remote` is true and `pulls` otherwise,
      and each list keeps the input order. */
  function Partition(rs: seq<Repo>): (plan: Plan)
    ensures |plan.pulls| + |plan.clones| == |rs|
    ensures multiset(plan.pulls) + multiset(plan.clones) == multiset(rs)
    ensures forall r :: r in plan.pulls <==> r in rs && !r.remote
    ensures forall r :: r in plan.clones <==> r in rs && r.remote
    ensures Subsequence(plan.pulls, rs) && Subsequence(plan.clones, rs)
  {
    FilterComplement(rs, IsPull, IsClone);
    FilterIsSubsequence(rs, IsPull);
    FilterIsSubsequence(rs, IsClone);
    assert forall r ::
      (r in Filter(rs, IsPull) <==> r in rs && !r.remote) &&
      (r in Filter(rs, IsClone) <==> r in rs && r.remote) by {
      forall r
        ensures r in Filter(rs, IsPull) <==> r in rs && !r.remote
        ensures r in Filter(rs, IsClone) <==> r in rs && r.remote
      {
        FilterMembers(rs, IsPull, r);
        FilterMembers(rs, IsClone, r);
      }
    }
    Plan(Filter(rs, IsPull), Filter(rs, IsClone))
  }

  /** A list of local records (`update --all`) becomes pulls only. */
  lemma AllLocalPlan(rs: seq<Repo>)
    requires forall i :: 0 <= i < |rs| ==> !rs[i].remote
    ensures Partition(rs) == Plan(rs, [])
  {
    FilterKeepsAll(rs, IsPull);
    FilterDropsAll(rs, IsClone);
  }

  predicate AllDefined(entries: seq<Option<Repo>>)
  {
    forall i :: 0 <= i < |entries| ==> entries[i].Some?
  }

  function Defined(entries: seq<Option<Repo>>): (rs: seq<Repo>)
    requires AllDefined(entries)
    ensures |rs| == |entries| && forall i :: 0 <= i < |rs| ==> entries[i] == Some(rs[i])
  {
    seq(|entries|, i requires 0 <= i < |entries| => entries[i].value)
  }

  function FirstUndefined(entries: seq<Option<Repo>>): (k: nat)
    requires !AllDefined(entries)
    ensures k < |entries| && entries[k].None?
    ensures forall j :: 0 <= j < k ==> entries[j].Some?
  {
    if entries[0].None? then 0 else 1 + FirstUndefined(entries[1..])
  }

  /** What `prepareActions` does with a list that may hold `undefined`: it
      throws at the first one, and otherwise partitions the records. */
  function PlanOf(entries: seq<Option<Repo>>): (outcome: Result<Plan, PrepareError>)
    ensures outcome.Success? <==> AllDefined(entries)
    ensures outcome.Success? ==> outcome.value == Partition(Defined(entries))
    ensures outcome.Failure? ==>
      outcome.error.index < |entries| && entries[outcome.error.index].None? &&
      forall j :: 0 <= j < outcome.error.index ==> entries[j].Some?
  {
    if AllDefined(entries) then Success(Partition(Defined(entries)))
    else Failure(UndefinedEntry(FirstUndefined(entries)))
  }

  /** `prepareActions`: one pass, pushing each record onto `clones` or `pulls`. */
  method PrepareActions(entries: seq<Option<Repo>>) returns (outcome: Result<Plan, PrepareError>)
    ensures outcome == PlanOf(entries)
  {
    var pulls: seq<Repo> := [];
    var clones: seq<Repo> := [];
    ghost var seen: seq<Repo> := [];
    for i := 0 to |entries|
      invariant AllDefined(entries[..i]) && seen == Defined(entries[..i])
      invariant Plan(pulls, clones) == Partition(seen)
    {
      if entries[i].None? {
        UndefinedAt(entries, i);
        return Failure(UndefinedEntry(i));
      }
      var repo := entries[i].value;
      DefinedExtend(entries, i);
      PartitionSnoc(seen, repo);
      seen := seen + [repo];
      if repo.remote {
        clones := clones + [repo];
      } else {
        pulls := pulls + [repo];
      }
    }
    assert entries[..|entries|] == entries;
    return Success(Plan(pulls, clones));
  }

  /** Appending a record appends it to the list its origin selects. */
  lemma PartitionSnoc(rs: seq<Repo>, r: Repo)
    ensures Partition(rs + [r]) ==
      if r.remote then Plan(Partition(rs).pulls, Partition(rs).clones + [r])
      else Plan(Partition(rs).pulls + [r], Partition(rs).clones)
  {
    FilterAppend(rs, [r], IsPull);
    FilterAppend(rs, [r], IsClone);
    assert Filter([r], IsPull) == if r.remote then [] else [r];
    assert Filter([r], IsClone) == if r.remote then [r] else [];
    assert Partition(rs + [r]) == Plan(Filter(rs + [r], IsPull), Filter(rs + [r], IsClone));
    assert Partition(rs) == Plan(Filter(rs, IsPull), Filter(rs, IsClone));
  }

  lemma DefinedExtend(entries: seq<Option<Repo>>, i: nat)
    requires i < |entries| && AllDefined(entries[..i]) && entries[i].Some?
    ensures AllDefined(entries[..i + 1])
    ensures Defined(entries[..i + 1]) == Defined(entries[..i]) + [entries[i].value]
  {
    assert entries[..i + 1] == entries[..i] + [entries[i]];
  }

  lemma UndefinedAt(entries: seq<Option<Repo>>, i: nat)
    requires i < |entries| && AllDefined(entries[..i]) && entries[i].None?
    ensures PlanOf(entries) == Failure(UndefinedEntry(i))
  {
    assert forall j :: 0 <= j < i ==> entries[..i][j] == entries[j];
  }

  /** A git operation: `simpleGit(path).pull()`, or `simpleGit(root).clone(url, directory)`. */
  datatype Command = Pull(path: string) | Clone(url: Option<string>, directory: string)

  /** `simpleGit(root + "/" + repo.value).pull()`. */
  function PullOf(root: string, r: Repo): Command
  {
    Pull(root + "/" + r.value)
  }

  /** `simpleGit(root).clone(repo.cloneUrl, repo.value)`. */
  function CloneOf(r: Repo): Command
  {
    Clone(r.cloneUrl, r.value)
  }

  function PullCommands(root: string, pulls: seq<Repo>): (cmds: seq<Command>)
    ensures |cmds| == |pulls|
    ensures forall i :: 0 <= i < |pulls| ==> cmds[i] == PullOf(root, pulls[i])
  {
    seq(|pulls|, i requires 0 <= i < |pulls| => PullOf(root, pulls[i]))
  }

  function CloneCommands(clones: seq<Repo>): (cmds: seq<Command>)
    ensures |cmds| == |clones|
    ensures forall i :: 0 <= i < |clones| ==> cmds[i] == CloneOf(clones[i])
  {
    seq(|clones|, i requires 0 <= i < |clones| => CloneOf(clones[i]))
  }

  /** The operations `runActions` issues when all succeed: one pull per entry
      of `pulls`, in order, at `root + "/" + value`, then one clone per entry
      of `clones`, in order, with `(cloneUrl, value)`. */
  function Commands(root: string, plan: Plan): (cmds: seq<Command>)
    ensures |cmds| == |plan.pulls| + |plan.clones|
    ensures cmds[..|plan.pulls|] == PullCommands(root, plan.pulls)
    ensures cmds[|plan.pulls|..] == CloneCommands(plan.clones)
  {
    PullCommands(root, plan.pulls) + CloneCommands(plan.clones)
  }

  /** The position of the first operation that fails, or `|cmds|`. */
  function FirstFailure(cmds: seq<Command>, ok: Command -> bool): (k: nat)
    ensures k <= |cmds|
    ensures forall j :: 0 <= j < k ==> ok(cmds[j])
    ensures k < |cmds| ==> !ok(cmds[k])
  {
    if cmds == [] then 0
    else if !ok(cmds[0]) then 0
    else 1 + FirstFailure(cmds[1..], ok)
  }

  /** The operations issued: a prefix of `cmds` that reaches the first
      failure, whose last operation failed exactly when the run stopped early. */
  function Issued(cmds: seq<Command>, ok: Command -> bool): (issued: seq<Command>)
    ensures |issued| <= |cmds| && issued == cmds[..|issued|]
    ensures FirstFailure(cmds, ok) < |issued| || |issued| == |cmds|
    ensures issued != [] && !ok(issued[|issued| - 1]) <==> FirstFailure(cmds, ok) < |cmds|
  {
    var k := FirstFailure(cmds, ok);
    if k == |cmds| then cmds else cmds[..k + 1]
  }

  /** `runActions` with the git operations abstracted to the oracle `ok`. Each
      operation is awaited with no `catch`, so the first rejection ends the run;
      `finished` says whether `done()` is reached. */
  method RunActions(root: string, plan: Plan, ok: Command -> bool) returns (trace: seq<Command>, finished: bool)
    ensures trace == Issued(Commands(root, plan), ok)
    ensures finished <==> FirstFailure(Commands(root, plan), ok) == |Commands(root, plan)|
  {
    ghost var cmds := Commands(root, plan);
    trace := [];
    for i := 0 to |plan.pulls|
      invariant trace == cmds[..i]
      invariant FirstFailure(cmds, ok) >= i
    {
      var cmd := PullOf(root, plan.pulls[i]);
      assert cmds[i] == cmd;
      Step(cmds, ok, i);
      PrefixSnoc(cmds, i);
      trace := trace + [cmd];
      if !ok(cmd) {
        return trace, false;
      }
    }
    var n := |plan.pulls|;
    for i := 0 to |plan.clones|
      invariant trace == cmds[..n + i]
      invariant FirstFailure(cmds, ok) >= n + i
    {
      var cmd := CloneOf(plan.clones[i]);
      ghost var k := n + i;
      assert cmds[k] == cmd;
      Step(cmds, ok, k);
      PrefixSnoc(cmds, k);
      trace := trace + [cmd];
      if !ok(cmd) {
        return trace, false;
      }
    }
    assert trace == cmds by {
      assert cmds[..|cmds|] == cmds;
    }
    return trace, true;
  }

  /** One iteration of `runActions`: either the run stops there or the first failure lies beyond it. */
  lemma Step(cmds: seq<Command>, ok: Command -> bool, i: nat)
    requires i < |cmds| && FirstFailure(cmds, ok) >= i
    ensures !ok(cmds[i]) ==> FirstFailure(cmds, ok) == i && Issued(cmds, ok) == cmds[..i + 1]
    ensures ok(cmds[i]) ==> FirstFailure(cmds, ok) >= i + 1
  {
    var k := FirstFailure(cmds, ok);
    if !ok(cmds[i]) {
      assert k == i;
    } else {
      assert k != i;
    }
  }

  /** Every issued operation but the last succeeded. */
  lemma IssuedSucceeded(cmds: seq<Command>, ok: Command -> bool)
    ensures var t := Issued(cmds, ok);
      forall j :: 0 <= j < |t| - 1 ==> ok(t[j])
  {
  }

  /** No failure isolation: when operation `i` fails, nothing after it is
      issued and `done()` is not reached. */
  lemma FailureEndsRun(cmds: seq<Command>, ok: Command -> bool, i: nat)
    requires i < |cmds| && !ok(cmds[i])
    ensures FirstFailure(cmds, ok) < |cmds|
    ensures |Issued(cmds, ok)| <= i + 1
  {
  }

  /** When every operation succeeds, all are issued in plan order. */
  lemma AllSucceed(cmds: seq<Command>, ok: Command -> bool)
    requires forall j :: 0 <= j < |cmds| ==> ok(cmds[j])
    ensures Issued(cmds, ok) == cmds && FirstFailure(cmds, ok) == |cmds|
  {
    assert cmds[..|cmds|] == cmds;
  }

  const UpdatingHeader: Styled := [Emoji(Cyan, ArrowsCounterclockwise), Text(Cyan, " Updating:\n")]
  const CloningHeader: Styled := [Text(Cyan, "\n"), Emoji(Cyan, New), Text(Cyan, " Cloning:\n")]

  /** One line of the summary: an arrow and the record's name. */
  function ItemLine(r: Repo): Styled
  {
    [Text(Cyan, "\U{279C}"), Text(Plain, "  "), Text(Green, r.value), Text(Plain, "\n")]
  }

  /** One line per record, in order. */
  function Lines(rs: seq<Repo>): (text: Styled)
    ensures |text| == 4 * |rs|
  {
    if rs == [] then [] else Lines(rs[..|rs| - 1]) + ItemLine(rs[|rs| - 1])
  }

  /** A header followed by one line per record, or nothing for no records. */
  function Section(header: Styled, rs: seq<Repo>): Styled
  {
    if rs == [] then [] else header + Lines(rs)
  }

  /** The text `confirmActions` shows before asking to continue. */
  function Summary(plan: Plan): (text: Styled)
    ensures |text| == (if plan.pulls == [] then 0 else |UpdatingHeader| + 4 * |plan.pulls|)
                    + (if plan.clones == [] then 0 else |CloningHeader| + 4 * |plan.clones|)
    ensures text == [] <==> plan.pulls == [] && plan.clones == []
    ensures plan.pulls != [] ==> text[..|UpdatingHeader|] == UpdatingHeader
    ensures plan.pulls == [] && plan.clones != [] ==> text[..|CloningHeader|] == CloningHeader
  {
    Section(UpdatingHeader, plan.pulls) + Section(CloningHeader, plan.clones)
  }

  /** `confirmActions`' accumulation of `actionsString`. */
  method SummaryText(plan: Plan) returns (text: Styled)
    ensures text == Summary(plan)
  {
    text := [];
    if |plan.pulls| > 0 {
      text := text + UpdatingHeader;
      for i := 0 to |plan.pulls|
        invariant text == UpdatingHeader + Lines(plan.pulls[..i])
      {
        LinesSnoc(UpdatingHeader, plan.pulls, i);
        text := text + ItemLine(plan.pulls[i]);
      }
      assert plan.pulls[..|plan.pulls|] == plan.pulls;
    }
    ghost var before := text;
    if |plan.clones| > 0 {
      text := text + CloningHeader;
      assert text == before + (CloningHeader + Lines(plan.clones[..0]));
      for i := 0 to |plan.clones|
        invariant text == before + (CloningHeader + Lines(plan.clones[..i]))
      {
        LinesSnoc(CloningHeader, plan.clones, i);
        text := text + ItemLine(plan.clones[i]);
      }
      assert plan.clones[..|plan.clones|] == plan.clones;
    }
  }

  lemma LinesSnoc(header: Styled, rs: seq<Repo>, i: nat)
    requires i < |rs|
    ensures header + Lines(rs[..i + 1]) == header + Lines(rs[..i]) + ItemLine(rs[i])
  {
    assert rs[..i + 1][..i] == rs[..i];
  }

  /** The `i`-th four pieces of the lines are the `i`-th record's line. */
  lemma {:induction false} LinesItems(rs: seq<Repo>)
    ensures forall i :: 0 <= i < |rs| ==> Lines(rs)[4 * i..4 * i + 4] == ItemLine(rs[i])
  {
    if rs != [] {
      var init := rs[..|rs| - 1];
      LinesItems(init);
      forall i | 0 <= i < |rs|
        ensures Lines(rs)[4 * i..4 * i + 4] == ItemLine(rs[i])
      {
        if i < |init| {
          assert Lines(rs)[4 * i..4 * i + 4] == Lines(init)[4 * i..4 * i + 4];
        }
      }
    }
  }

  /** The green runs of a styled text, in order: the names it lists. */
  function Highlighted(s: Styled): seq<string>
  {
    if s == [] then []
    else (if s[0].Text? && s[0].color == Green then [s[0].text] else []) + Highlighted(s[1..])
  }

  lemma {:induction false} HighlightedAppend(a: Styled, b: Styled)
    ensures Highlighted(a + b) == Highlighted(a) + Highlighted(b)
  {
    if a == [] {
      assert a + b == b;
    } else {
      assert (a + b)[1..] == a[1..] + b;
      HighlightedAppend(a[1..], b);
    }
  }

  lemma {:induction false} LinesName(rs: seq<Repo>)
    ensures Highlighted(Lines(rs)) == Values(rs)
    ensures forall g :: Emoji(Cyan, g) !in Lines(rs)
  {
    if rs != [] {
      var init := rs[..|rs| - 1];
      LinesName(init);
      var line := ItemLine(rs[|rs| - 1]);
      HighlightedAppend(Lines(init), line);
      assert Highlighted(line[3..]) == [];
      assert Highlighted(line[2..]) == [rs[|rs| - 1].value] + Highlighted(line[3..]);
      assert Highlighted(line[1..]) == Highlighted(line[2..]);
      assert Highlighted(line) == Highlighted(line[1..]);
      assert Values(rs) == Values(init) + [rs[|rs| - 1].value];
    }
  }

  lemma HeadersPlain()
    ensures Highlighted(UpdatingHeader) == [] && Highlighted(CloningHeader) == []
  {
    assert Highlighted(UpdatingHeader[1..]) == [];
    assert Highlighted(CloningHeader[2..]) == [];
    assert Highlighted(CloningHeader[1..]) == [];
  }

  /** A section names its records, and holds a glyph of its header exactly
      when it has records. */
  lemma SectionContents(header: Styled, rs: seq<Repo>, g: Glyph)
    requires Highlighted(header) == [] && Emoji(Cyan, g) in header
    ensures Highlighted(Section(header, rs)) == Values(rs)
    ensures Emoji(Cyan, g) in Section(header, rs) <==> rs != []
  {
    LinesName(rs);
    if rs != [] {
      HighlightedAppend(header, Lines(rs));
    }
  }

  /** The summary names the pulled records and then the cloned ones, in plan
      order; each header appears exactly when its section has records. */
  lemma SummaryContents(plan: Plan)
    ensures Highlighted(Summary(plan)) == Values(plan.pulls) + Values(plan.clones)
    ensures Emoji(Cyan, ArrowsCounterclockwise) in Summary(plan) <==> plan.pulls != []
    ensures Emoji(Cyan, New) in Summary(plan) <==> plan.clones != []
  {
    HeadersPlain();
    assert Emoji(Cyan, ArrowsCounterclockwise) == UpdatingHeader[0];
    assert Emoji(Cyan, New) == CloningHeader[1];
    var up := Section(UpdatingHeader, plan.pulls);
    var cl := Section(CloningHeader, plan.clones);
    SectionContents(UpdatingHeader, plan.pulls, ArrowsCounterclockwise);
    SectionContents(CloningHeader, plan.clones, New);
    LinesName(plan.pulls);
    LinesName(plan.clones);
    HighlightedAppend(up, cl);
  }

  /** How a confirmed run ends. */
  datatype Ending = Declined | Completed | Rejected

  /** `confirmActions`: shows the summary, then runs the plan if the user
      confirms and terminates otherwise. */
  method ConfirmActions(root: string, plan: Plan, confirmed: bool, ok: Command -> bool)
    returns (text: Styled, trace: seq<Command>, ending: Ending)
    ensures text == Summary(plan)
    ensures !confirmed ==> trace == [] && ending == Declined
    ensures confirmed ==> trace == Issued(Commands(root, plan), ok)
    ensures confirmed ==>
      (ending == Completed <==> FirstFailure(Commands(root, plan), ok) == |Commands(root, plan)|)
    ensures confirmed ==> ending != Declined
  {
    text := SummaryText(plan);
    if !confirmed {
      return text, [], Declined;
    }
    var finished;
    trace, finished := RunActions(root, plan, ok);
    ending := if finished then Completed else Rejected;
  }
}
