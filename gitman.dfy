/** The command flows that connect discovery, reconciliation, resolution and
    planning: `listRepositories` and `updateSelectedRepositories`. */
module Gitman {
  import opened Wrappers
  import opened Seqs
  import opened Text
  import opened Records
  import opened Config
  import opened Registry
  import opened Reconciliation
  import opened Actions

  /** `listRepositories` up to the confirmation prompt: discovers both lists,
      offers the remote records not cloned locally, resolves the names the
      user picked, and plans. The registry starts empty, as it does in a fresh
      process. */
  method ListRepositories(probes: seq<LocalProbe>, token: Option<string>,
                          response: Option<seq<RemoteInfo>>, selections: seq<string>)
    returns (locals: seq<Repo>, offered: seq<Repo>, outcome: Result<Plan, PrepareError>)
    ensures locals == LocalRecords(probes)
    ensures offered == Reconcile(locals, RemoteListing(token, response))
    ensures outcome == PlanOf(Resolve(selections, Indexed(map[], locals), Indexed(map[], RemoteListing(token, response))))
  {
    var registry := new Registry();
    locals := registry.DiscoverLocal(probes);
    var remotes := registry.DiscoverRemote(token, response);
    offered := Reconcile(locals, remotes);
    var entries := Resolve(selections, registry.local, registry.remote);
    outcome := PrepareActions(entries);
  }

  /** A name with a local record resolves to that local record, even when a
      remote record of the same name was listed. */
  lemma LocalWins(locals: seq<Repo>, remotes: seq<Repo>, name: string)
    requires forall i :: 0 <= i < |locals| ==> !locals[i].remote
    requires name in Values(locals)
    ensures var r := Resolve([name], Indexed(map[], locals), Indexed(map[], remotes))[0];
      r.Some? && r.value in locals && r.value.value == name && !r.value.remote
  {
  }

  /** A name that was offered resolves to a local record or to an offered
      remote record. */
  lemma OfferedNameResolves(locals: seq<Repo>, remotes: seq<Repo>, name: string)
    requires name in Values(locals) || name in Values(Reconcile(locals, remotes))
    ensures var e := Lookup(name, Indexed(map[], locals), Indexed(map[], remotes));
      e.Some? && (e.value in locals || e.value in Reconcile(locals, remotes))
  {
    var offered := Reconcile(locals, remotes);
    if name !in Indexed(map[], locals) {
      assert forall k :: 0 <= k < |locals| ==> locals[k].value != name by {
        forall k | 0 <= k < |locals| ensures locals[k].value != name {
          assert locals[k] in locals;
        }
      }
      UnclaimedNameResolves(locals, remotes, offered, name);
    }
  }

  /** The remote half of `OfferedNameResolves`, for any list that holds
      exactly the remote records without a local namesake. */
  lemma UnclaimedNameResolves(locals: seq<Repo>, remotes: seq<Repo>, offered: seq<Repo>, name: string)
    requires forall r :: r in offered <==>
      r in remotes && forall j :: 0 <= j < |locals| ==> locals[j].value != r.value
    requires forall k :: 0 <= k < |locals| ==> locals[k].value != name
    requires name in Values(offered)
    ensures var e := Lookup(name, Indexed(map[], locals), Indexed(map[], remotes));
      e.Some? && e.value in offered
  {
    var remote := Indexed(map[], remotes);
    var j :| 0 <= j < |offered| && Values(offered)[j] == name;
    assert offered[j] in remotes && offered[j].value == name;
    assert name in remote;
    assert remote[name] in remotes && remote[name].value == name;
  }

  /** When the user picks only names that were offered (local records and the
      remote records reconciliation kept), nothing is `undefined`: every pick is
      planned, local records as pulls and offered remote records as clones. */
  lemma PicksFromChoices(locals: seq<Repo>, remotes: seq<Repo>, selections: seq<string>)
    requires forall i :: 0 <= i < |locals| ==> !locals[i].remote
    requires forall i :: 0 <= i < |remotes| ==> remotes[i].remote
    requires forall i :: 0 <= i < |selections| ==>
      selections[i] in Values(locals) || selections[i] in Values(Reconcile(locals, remotes))
    ensures var outcome := PlanOf(Resolve(selections, Indexed(map[], locals), Indexed(map[], remotes)));
      && outcome.Success?
      && |outcome.value.pulls| + |outcome.value.clones| == |selections|
      && (forall r :: r in outcome.value.pulls ==> r in locals)
      && (forall r :: r in outcome.value.clones ==> r in Reconcile(locals, remotes))
  {
    var local := Indexed(map[], locals);
    var remote := Indexed(map[], remotes);
    var offered := Reconcile(locals, remotes);
    var entries := Resolve(selections, local, remote);
    forall i | 0 <= i < |entries|
      ensures entries[i].Some? && (entries[i].value in locals || entries[i].value in offered)
    {
      OfferedNameResolves(locals, remotes, selections[i]);
    }
    var picked := Defined(entries);
    forall r | r in picked ensures r.remote ==> r in offered
                           ensures !r.remote ==> r in locals
    {
      var k :| 0 <= k < |picked| && picked[k] == r;
      assert entries[k] == Some(r);
    }
  }

  /** `updateSelectedRepositories`: only local records are discovered. With
      `--all` every local record is pulled; otherwise the saved names are
      resolved against the local records alone; with nothing saved the user is
      told how to select (`None`). */
  method UpdateSelectedRepositories(all: bool, settings: Settings, probes: seq<LocalProbe>)
    returns (outcome: Option<Result<Plan, PrepareError>>)
    ensures all ==> outcome == Some(Success(Plan(LocalRecords(probes), [])))
    ensures !all && settings.selectedRepos.None? ==> outcome == None
    ensures !all && settings.selectedRepos.Some? ==>
      outcome == Some(PlanOf(Resolve(Split(settings.selectedRepos.value, ','), Indexed(map[], LocalRecords(probes)), map[])))
  {
    var registry := new Registry();
    var repos := registry.DiscoverLocal(probes);
    if all {
      var entries := seq(|repos|, i requires 0 <= i < |repos| => Some(repos[i]));
      assert Defined(entries) == repos;
      AllLocalPlan(repos);
      var plan := PrepareActions(entries);
      return Some(plan);
    }
    var saved := settings.SavedSelection();
    if saved.None? {
      return None;
    }
    var entries := Resolve(saved.value, registry.local, registry.remote);
    var plan := PrepareActions(entries);
    return Some(plan);
  }

  /** On the update path a saved name with no local record is `undefined`. */
  lemma UnknownSavedName(probes: seq<LocalProbe>, names: seq<string>, i: nat)
    requires i < |names|
    requires forall k :: 0 <= k < |probes| ==> probes[k].name != names[i]
    ensures Resolve(names, Indexed(map[], LocalRecords(probes)), map[])[i] == None
  {
    var locals := LocalRecords(probes);
    forall r | r in locals ensures r.value != names[i] {
      var k :| 0 <= k < |locals| && locals[k] == r;
    }
  }

  /** An empty saved selection ("") loads as one empty name, which no working
      tree has, so planning the update throws at the first entry. */
  lemma EmptySavedSelection(probes: seq<LocalProbe>)
    requires forall k :: 0 <= k < |probes| ==> probes[k].name != ""
    ensures PlanOf(Resolve(Split("", ','), Indexed(map[], LocalRecords(probes)), map[])) == Failure(UndefinedEntry(0))
  {
    UnknownSavedName(probes, [""], 0);
  }

  /** A saved name that some working tree has resolves to that tree's record. */
  lemma SavedNameResolves(probes: seq<LocalProbe>, name: string)
    requires exists j :: 0 <= j < |probes| && probes[j].name == name
    ensures var locals := LocalRecords(probes);
      name in Indexed(map[], locals) &&
      Indexed(map[], locals)[name] in locals && Indexed(map[], locals)[name].value == name
  {
    var locals := LocalRecords(probes);
    var j :| 0 <= j < |probes| && probes[j].name == name;
    assert locals[j] in locals && locals[j].value == name;
  }

  /** Resolving saved local names on the update path finds each name's local record. */
  lemma SavedNamesResolve(probes: seq<LocalProbe>, names: seq<string>)
    requires forall k :: 0 <= k < |names| ==> exists j :: 0 <= j < |probes| && probes[j].name == names[k]
    ensures var entries := Resolve(names, Indexed(map[], LocalRecords(probes)), map[]);
      && AllDefined(entries)
      && forall k :: 0 <= k < |names| ==> Defined(entries)[k] in LocalRecords(probes) && Defined(entries)[k].value == names[k]
  {
    var local := Indexed(map[], LocalRecords(probes));
    forall k | 0 <= k < |names|
      ensures names[k] in local && local[names[k]] in LocalRecords(probes) && local[names[k]].value == names[k]
    {
      SavedNameResolves(probes, names[k]);
    }
  }

  /** Records found that way are all local, so the plan pulls them in order. */
  lemma LocalPicksPlan(locals: seq<Repo>, picked: seq<Repo>, names: seq<string>)
    requires forall i :: 0 <= i < |locals| ==> !locals[i].remote
    requires |picked| == |names|
    requires forall k :: 0 <= k < |names| ==> picked[k] in locals && picked[k].value == names[k]
    ensures Partition(picked) == Plan(picked, []) && Values(picked) == names
  {
    AllLocalPlan(picked);
  }

  /** Saving some local names and updating pulls exactly those records, in the
      saved order, and clones nothing. */
  lemma SavedSelectionPulls(probes: seq<LocalProbe>, names: seq<string>)
    requires names != []
    requires forall k :: 0 <= k < |names| ==> ',' !in names[k]
    requires forall k :: 0 <= k < |names| ==> exists j :: 0 <= j < |probes| && probes[j].name == names[k]
    ensures var outcome := PlanOf(Resolve(Split(Join(names, ','), ','), Indexed(map[], LocalRecords(probes)), map[]));
      && outcome.Success?
      && outcome.value.clones == []
      && Values(outcome.value.pulls) == names
      && forall r :: r in outcome.value.pulls ==> r in LocalRecords(probes)
  {
    SplitJoin(names, ',');
    SavedNamesResolve(probes, names);
    var picked := Defined(Resolve(names, Indexed(map[], LocalRecords(probes)), map[]));
    LocalPicksPlan(LocalRecords(probes), picked, names);
  }

  // An example folder: `proj1` (clean, on `main`) and `proj2` (dirty, on
  // `feature`) are local working trees; the hosting account lists `proj1` and
  // `proj3`.
  const Proj1Local := LocalRecord(LocalProbe("proj1", 0, Some("main")))
  const Proj2Local := LocalRecord(LocalProbe("proj2", 2, Some("feature")))
  const Proj1Remote := RemoteRecord(RemoteInfo("proj1", Some("git@host:proj1.git")))
  const Proj3Remote := RemoteRecord(RemoteInfo("proj3", Some("git@host:proj3.git")))

  /** Only `proj3` is offered: `proj1` is already claimed by a local clone. */
  lemma TwoRepositoryOffer()
    ensures Reconcile([Proj1Local, Proj2Local], [Proj1Remote, Proj3Remote]) == [Proj3Remote]
  {
    var locals := [Proj1Local, Proj2Local];
    assert "proj3"[4] != "proj1"[4] && "proj3"[4] != "proj2"[4];
    assert Proj1Remote.value == "proj1" && Proj3Remote.value == "proj3";
    assert locals[0].value == "proj1" && locals[1].value == "proj2";
    assert FindIndex(locals, "proj1") == 0;
    assert FindIndex(locals, "proj3") == -1;
    assert Filter([Proj1Remote], Unclaimed(locals)) == [];
    assert Filter([Proj3Remote], Unclaimed(locals)) == [Proj3Remote];
    FilterAppend([Proj1Remote], [Proj3Remote], Unclaimed(locals));
    assert [Proj1Remote, Proj3Remote] == [Proj1Remote] + [Proj3Remote];
  }

  /** Discovery registers each example record under its name. */
  lemma TwoRepositoryRegistry()
    ensures Indexed(map[], [Proj1Local, Proj2Local]) == map["proj1" := Proj1Local, "proj2" := Proj2Local]
    ensures Indexed(map[], [Proj1Remote, Proj3Remote]) == map["proj1" := Proj1Remote, "proj3" := Proj3Remote]
  {
    assert Proj1Local.value == "proj1" && Proj2Local.value == "proj2";
    assert Proj1Remote.value == "proj1" && Proj3Remote.value == "proj3";
    assert [Proj1Local, Proj2Local][1..] == [Proj2Local];
    assert [Proj1Remote, Proj3Remote][1..] == [Proj3Remote];
  }

  /** In the example folder, `proj2` resolves to its working tree and `proj3`
      to its remote record. */
  lemma TwoRepositoryPicks()
    ensures Resolve(["proj2", "proj3"],
                    Indexed(map[], [Proj1Local, Proj2Local]),
                    Indexed(map[], [Proj1Remote, Proj3Remote]))
            == [Some(Proj2Local), Some(Proj3Remote)]
  {
    TwoRepositoryRegistry();
    assert "proj3"[4] != "proj1"[4] && "proj3"[4] != "proj2"[4];
  }

  /** Picking `proj2` and `proj3` in the example folder pulls `proj2` and
      clones `proj3`. */
  lemma TwoRepositoryPlan()
    ensures PlanOf(Resolve(["proj2", "proj3"],
                           Indexed(map[], [Proj1Local, Proj2Local]),
                           Indexed(map[], [Proj1Remote, Proj3Remote])))
            == Success(Plan([Proj2Local], [Proj3Remote]))
  {
    TwoRepositoryPicks();
    assert !Proj2Local.remote && Proj3Remote.remote;
    PickPair(Proj2Local, Proj3Remote);
  }

  /** Picking one local and then one remote record plans one pull and one clone. */
  lemma PickPair(l: Repo, r: Repo)
    requires !l.remote && r.remote
    ensures PlanOf([Some(l), Some(r)]) == Success(Plan([l], [r]))
  {
    var entries := [Some(l), Some(r)];
    assert Defined(entries) == [l] + [r];
    FilterAppend([l], [r], IsPull);
    FilterAppend([l], [r], IsClone);
    assert Filter([l], IsPull) == [l] && Filter([r], IsPull) == [];
    assert Filter([l], IsClone) == [] && Filter([r], IsClone) == [r];
    assert [l] + [] == [l] && [] + [r] == [r];
    assert Partition([l] + [r]) == Plan(Filter([l] + [r], IsPull), Filter([l] + [r], IsClone));
  }

  /** That plan issues one pull in the root and then one clone by SSH URL. */
  lemma TwoRepositoryCommands(root: string)
    ensures Commands(root, Plan([Proj2Local], [Proj3Remote]))
            == [Pull(root + "/proj2"), Clone(Some("git@host:proj3.git"), "proj3")]
  {
    assert Proj2Local.value == "proj2";
    assert Proj3Remote.value == "proj3" && Proj3Remote.cloneUrl == Some("git@host:proj3.git");
    assert root + "/" + "proj2" == root + "/proj2";
    assert PullCommands(root, [Proj2Local]) == [Pull(root + "/proj2")];
    assert CloneCommands([Proj3Remote]) == [Clone(Some("git@host:proj3.git"), "proj3")];
  }
}
