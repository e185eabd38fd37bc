/** Repository records (the `Repo` class of bin/gitman-cli.js) and their
    display label. Colours and emoji are tags, not terminal escape codes. */
module Records {
  import opened Wrappers

  datatype Color = Plain | Green | Cyan | Red

  /** The `node-emoji` names the program uses. */
  datatype Glyph = Warning | ArrowsCounterclockwise | New

  /** A run of text in one colour, or one emoji. */
  datatype Piece = Text(color: Color, text: string) | Emoji(color: Color, glyph: Glyph)

  type Styled = seq<Piece>

  /** A repository record. The source keeps the label in `name`, computed once
      by the constructor; since no field changes afterwards, `Display`
      recomputes the same value. */
  datatype Repo = Repo(
    value: string,
    remote: bool,
    uncommitedChanges: bool,
    branch: Option<string>,
    cloneUrl: Option<string>)

  /** The caller's `props`: `None` is a key that is absent (or `undefined`). */
  datatype Props = Props(
    remote: Option<bool>,
    uncommitedChanges: Option<bool>,
    branch: Option<string>,
    cloneUrl: Option<string>)

  /** `new Repo(name, props)`: defaults `remote` and `uncommitedChanges` to
      false, lets `props` override them, and sets `value` to `name`. */
  function NewRepo(name: string, props: Props): (r: Repo)
    ensures r.value == name
    ensures r.remote <==> props.remote == Some(true)
    ensures r.uncommitedChanges <==> props.uncommitedChanges == Some(true)
    ensures r.branch == props.branch && r.cloneUrl == props.cloneUrl
  {
    Repo(name, props.remote.GetOr(false), props.uncommitedChanges.GetOr(false),
         props.branch, props.cloneUrl)
  }

  /** `if (this.branch)`: present and not the empty string. */
  predicate HasBranch(r: Repo)
  {
    r.branch.Some? && r.branch.value != ""
  }

  function BranchColor(branch: string): Color
  {
    if branch == "master" then Cyan else Red
  }

  const WarningSegment: Styled :=
    [Text(Plain, " "), Emoji(Plain, Warning), Text(Plain, "  "), Text(Red, "Uncommited changes")]

  /** `Repo.prototype.toString`. */
  function Display(r: Repo): (shown: Styled)
    ensures |shown| == 1 + (if HasBranch(r) then 3 else 0) + (if r.uncommitedChanges then 4 else 0)
    ensures shown[0] == Text(if r.remote then Plain else Green, r.value)
    ensures HasBranch(r) <==> |shown| >= 4 && shown[1] == Text(Plain, " (")
    ensures HasBranch(r) ==>
      shown[1..4] == [Text(Plain, " ("), Text(BranchColor(r.branch.value), r.branch.value), Text(Plain, ")")]
    ensures r.uncommitedChanges <==> |shown| >= 5 && shown[|shown| - 4..] == WarningSegment
  {
    var head := [Text(if r.remote then Plain else Green, r.value)];
    var withBranch :=
      if HasBranch(r)
      then head + [Text(Plain, " ("), Text(BranchColor(r.branch.value), r.branch.value), Text(Plain, ")")]
      else head;
    if r.uncommitedChanges then withBranch + WarningSegment else withBranch
  }

  /** The label determines the record's name, origin, shown branch and dirty flag. */
  lemma DisplayDetermines(r1: Repo, r2: Repo)
    requires Display(r1) == Display(r2)
    ensures r1.value == r2.value && r1.remote == r2.remote
    ensures HasBranch(r1) == HasBranch(r2)
    ensures HasBranch(r1) ==> r1.branch == r2.branch
    ensures r1.uncommitedChanges == r2.uncommitedChanges
  {
    var shown := Display(r1);
    if HasBranch(r1) {
      assert shown[2] == Text(BranchColor(r1.branch.value), r1.branch.value);
      assert shown[2] == Text(BranchColor(r2.branch.value), r2.branch.value);
    }
  }

  /** What discovery learns about one local working tree:
      `diff.files.length` and `status.current`. */
  datatype LocalProbe = LocalProbe(name: string, changedFiles: nat, current: Option<string>)

  /** One element of the hosting API's repository list: `name` and `ssh_url`. */
  datatype RemoteInfo = RemoteInfo(name: string, sshUrl: Option<string>)

  /** The record `getLocalRepos` builds for one working tree. */
  function LocalRecord(p: LocalProbe): (r: Repo)
    ensures r.value == p.name && !r.remote
    ensures r.uncommitedChanges <==> p.changedFiles > 0
    ensures r.branch == p.current && r.cloneUrl == None
  {
    NewRepo(p.name, Props(None, Some(p.changedFiles > 0), p.current, None))
  }

  /** The record `getRemoteRepos` builds for one listed repository. */
  function RemoteRecord(info: RemoteInfo): (r: Repo)
    ensures r.value == info.name && r.remote
    ensures r.cloneUrl == info.sshUrl
    ensures !r.uncommitedChanges && r.branch == None
  {
    NewRepo(info.name, Props(Some(true), None, None, info.sshUrl))
  }

  /** A remote record is labelled by its bare name; a local one by its name
      in green, followed by its branch and dirty state. */
  lemma RecordLabels(p: LocalProbe, info: RemoteInfo)
    ensures Display(RemoteRecord(info)) == [Text(Plain, info.name)]
    ensures Display(LocalRecord(p))[0] == Text(Green, p.name)
    ensures p.changedFiles > 0 <==> Display(LocalRecord(p))[|Display(LocalRecord(p))| - 1] == Text(Red, "Uncommited changes")
  {
  }

  function LocalRecords(probes: seq<LocalProbe>): (rs: seq<Repo>)
    ensures |rs| == |probes|
    ensures forall i :: 0 <= i < |probes| ==> rs[i] == LocalRecord(probes[i])
  {
    seq(|probes|, i requires 0 <= i < |probes| => LocalRecord(probes[i]))
  }

  function RemoteRecords(infos: seq<RemoteInfo>): (rs: seq<Repo>)
    ensures |rs| == |infos|
    ensures forall i :: 0 <= i < |infos| ==> rs[i] == RemoteRecord(infos[i])
  {
    seq(|infos|, i requires 0 <= i < |infos| => RemoteRecord(infos[i]))
  }

  /** The `value` of each record, in order. */
  function Values(rs: seq<Repo>): (vs: seq<string>)
    ensures |vs| == |rs|
    ensures forall i :: 0 <= i < |rs| ==> vs[i] == rs[i].value
  {
    seq(|rs|, i requires 0 <= i < |rs| => rs[i].value)
  }
}
