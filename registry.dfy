/** The module-level `repositories` object: records indexed by name, one map
    for local working trees and one for remote repositories, filled during
    discovery and read by `getRepoObjectsFromSelections`. */
module Registry {
  import opened Wrappers
  import opened Records
  import opened Config

  /** `m` after `m[r.value] = r` for each `r` of `rs`, in order. */
  function Indexed(m: map<string, Repo>, rs: seq<Repo>): (r: map<string, Repo>)
    ensures r.Keys == m.Keys + (set x | x in rs :: x.value)
    ensures forall k :: k in r ==> (r[k] in rs && r[k].value == k) || (k in m && r[k] == m[k])
    decreases |rs|
  {
    if rs == [] then m else Indexed(m[rs[0].value := rs[0]], rs[1..])
  }

  lemma {:induction false} IndexedSnoc(m: map<string, Repo>, rs: seq<Repo>, x: Repo)
    ensures Indexed(m, rs + [x]) == Indexed(m, rs)[x.value := x]
    decreases |rs|
  {
    if rs != [] {
      assert (rs + [x])[1..] == rs[1..] + [x];
      IndexedSnoc(m[rs[0].value := rs[0]], rs[1..], x);
    }
  }

  /** A record that no later record shares a name with is the one stored under its name. */
  lemma {:induction false} IndexedLast(m: map<string, Repo>, rs: seq<Repo>, i: nat)
    requires i < |rs|
    requires forall j :: i < j < |rs| ==> rs[j].value != rs[i].value
    ensures rs[i].value in Indexed(m, rs) && Indexed(m, rs)[rs[i].value] == rs[i]
    decreases |rs|
  {
    if i == 0 {
      IndexedKeeps(m[rs[0].value := rs[0]], rs[1..], rs[0].value);
    } else {
      IndexedLast(m[rs[0].value := rs[0]], rs[1..], i - 1);
    }
  }

  /** Keys that no record is stored under keep their entry. */
  lemma {:induction false} IndexedKeeps(m: map<string, Repo>, rs: seq<Repo>, k: string)
    requires k in m
    requires forall j :: 0 <= j < |rs| ==> rs[j].value != k
    ensures k in Indexed(m, rs) && Indexed(m, rs)[k] == m[k]
    decreases |rs|
  {
    if rs != [] {
      IndexedKeeps(m[rs[0].value := rs[0]], rs[1..], k);
    }
  }

  /** `getRepoObjectsFromSelections` for one name: the local record if there is
      one, else the remote record, else `undefined`. */
  function Lookup(name: string, local: map<string, Repo>, remote: map<string, Repo>): (e: Option<Repo>)
    ensures e.None? <==> name !in local.Keys + remote.Keys
    ensures name in local ==> e == Some(local[name])
    ensures e.Some? && name !in local ==> e == Some(remote[name])
  {
    if name in local then Some(local[name])
    else if name in remote then Some(remote[name])
    else None
  }

  /** `getRepoObjectsFromSelections`: one entry per selected name, in order;
      unknown names are kept as `undefined`. */
  function Resolve(names: seq<string>, local: map<string, Repo>, remote: map<string, Repo>): (r: seq<Option<Repo>>)
    ensures |r| == |names|
    ensures forall i :: 0 <= i < |names| && names[i] in local ==> r[i] == Some(local[names[i]])
    ensures forall i :: 0 <= i < |names| && names[i] !in local && names[i] in remote ==> r[i] == Some(remote[names[i]])
    ensures forall i :: 0 <= i < |names| && names[i] !in local && names[i] !in remote ==> r[i] == None
  {
    if names == [] then [] else [Lookup(names[0], local, remote)] + Resolve(names[1..], local, remote)
  }

  /** The records `getRemoteRepos` returns: none without a usable token, none
      when the request fails (the error is caught), otherwise one per listed
      repository. */
  function RemoteListing(token: Option<string>, response: Option<seq<RemoteInfo>>): (rs: seq<Repo>)
    ensures !TokenUsable(token) || response.None? ==> rs == []
    ensures TokenUsable(token) && response.Some? ==>
      |rs| == |response.value| &&
      forall i :: 0 <= i < |rs| ==> rs[i].remote && rs[i].value == response.value[i].name && rs[i].cloneUrl == response.value[i].sshUrl
  {
    if !TokenUsable(token) then []
    else match response
      case None => []
      case Some(infos) => RemoteRecords(infos)
  }

  class Registry {
    var local: map<string, Repo>
    var remote: map<string, Repo>

    constructor()
      ensures local == map[] && remote == map[]
    {
      local := map[];
      remote := map[];
    }

    /** `repositories.local[repo.value] = repo`. */
    method AddLocal(repo: Repo)
      modifies this`local
      ensures local == old(local)[repo.value := repo]
    {
      local := local[repo.value := repo];
    }

    /** `repositories.remote[repo.value] = repo`. */
    method AddRemote(repo: Repo)
      modifies this`remote
      ensures remote == old(remote)[repo.value := repo]
    {
      remote := remote[repo.value := repo];
    }

    /** `getLocalRepos`, after the directory scan and the git queries: builds one
        record per working tree, in order, and registers each under its name. */
    method DiscoverLocal(probes: seq<LocalProbe>) returns (repos: seq<Repo>)
      modifies this`local
      ensures repos == LocalRecords(probes)
      ensures local == Indexed(old(local), repos)
    {
      repos := [];
      var i := 0;
      while i < |probes|
        invariant 0 <= i <= |probes|
        invariant repos == LocalRecords(probes[..i])
        invariant local == Indexed(old(local), repos)
      {
        var repo := LocalRecord(probes[i]);
        AddLocal(repo);
        IndexedSnoc(old(local), repos, repo);
        repos := repos + [repo];
        i := i + 1;
      }
      assert probes[..i] == probes;
    }

    /** `getRemoteRepos`, given the stored token and the API's answer
        (`None` when the request failed). */
    method DiscoverRemote(token: Option<string>, response: Option<seq<RemoteInfo>>) returns (repos: seq<Repo>)
      modifies this`remote
      ensures repos == RemoteListing(token, response)
      ensures remote == Indexed(old(remote), repos)
    {
      repos := [];
      if !TokenUsable(token) || response.None? {
        return;
      }
      var infos := response.value;
      var i := 0;
      while i < |infos|
        invariant 0 <= i <= |infos|
        invariant repos == RemoteRecords(infos[..i])
        invariant remote == Indexed(old(remote), repos)
      {
        var repo := RemoteRecord(infos[i]);
        AddRemote(repo);
        IndexedSnoc(old(remote), repos, repo);
        repos := repos + [repo];
        i := i + 1;
      }
      assert infos[..i] == infos;
    }
  }
}
