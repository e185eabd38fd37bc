/** The filter in `listRepositories` that hides remote repositories already
    cloned locally. Records are matched by `value`, exact string equality. */
module Reconciliation {
  import opened Seqs
  import opened Records

  /** `locals.findIndex(l => l.value === name)`. */
  function FindIndex(locals: seq<Repo>, name: string): (k: int)
    ensures -1 <= k < |locals|
    ensures k >= 0 ==> locals[k].value == name && forall j :: 0 <= j < k ==> locals[j].value != name
    ensures k == -1 <==> forall j :: 0 <= j < |locals| ==> locals[j].value != name
  {
    if locals == [] then -1
    else if locals[0].value == name then 0
    else
      var k := FindIndex(locals[1..], name);
      if k == -1 then -1 else k + 1
  }

  /** The filter's predicate: no local record has this remote record's name. */
  function Unclaimed(locals: seq<Repo>): Repo -> bool
  {
    (r: Repo) => FindIndex(locals, r.value) == -1
  }

  /** The remote records still offered for cloning: exactly those with no
      local namesake, each as often as the remote list holds it, in the order
      of the remote list. */
  function Reconcile(locals: seq<Repo>, remotes: seq<Repo>): (offered: seq<Repo>)
    ensures Subsequence(offered, remotes)
    ensures forall r :: r in offered <==>
      r in remotes && forall j :: 0 <= j < |locals| ==> locals[j].value != r.value
    ensures forall r ::
              multiset(offered)[r] == if FindIndex(locals, r.value) == -1 then multiset(remotes)[r] else 0
  {
    var p := Unclaimed(locals);
    FilterIsSubsequence(remotes, p);
    forall r
      ensures multiset(Filter(remotes, p))[r] == if p(r) then multiset(remotes)[r] else 0
    {
      FilterCount(remotes, p, r);
    }
    assert forall r :: r in Filter(remotes, p) <==> r in remotes && p(r) by {
      forall r ensures r in Filter(remotes, p) <==> r in remotes && p(r) {
        FilterMembers(remotes, p, r);
      }
    }
    Filter(remotes, p)
  }

  /** With no local records every remote record is offered, in order. */
  lemma ReconcileWithoutLocals(remotes: seq<Repo>)
    ensures Reconcile([], remotes) == remotes
  {
    FilterKeepsAll(remotes, Unclaimed([]));
  }

  /** When every remote name is also a local name, nothing is offered. */
  lemma ReconcileAllClaimed(locals: seq<Repo>, remotes: seq<Repo>)
    requires forall i :: 0 <= i < |remotes| ==> exists j :: 0 <= j < |locals| && locals[j].value == remotes[i].value
    ensures Reconcile(locals, remotes) == []
  {
    FilterDropsAll(remotes, Unclaimed(locals));
  }

  /** Reconciling a second time changes nothing. */
  lemma ReconcileIdempotent(locals: seq<Repo>, remotes: seq<Repo>)
    ensures Reconcile(locals, Reconcile(locals, remotes)) == Reconcile(locals, remotes)
  {
    var offered := Reconcile(locals, remotes);
    forall i | 0 <= i < |offered|
      ensures Unclaimed(locals)(offered[i])
    {
      FilterMembers(remotes, Unclaimed(locals), offered[i]);
    }
    FilterKeepsAll(offered, Unclaimed(locals));
  }
}
