/** The two persisted settings the core reads and writes: the hosting token
    (global store key `github.token`) and the saved selection (local store
    key `selectedRepos`). */
module Config {
  import opened Wrappers
  import opened Text

  /** The `token` argument of `configure`: `undefined`, a string, or some other
      value (such as a boolean from the command-line parser). */
  datatype TokenArg = Missing | Given(s: string) | NotString

  /** What `configure` stores: the trimmed string, or the literal "false". */
  function StoredToken(token: TokenArg): (stored: string)
    ensures token.Given? ==> stored == Trim(token.s)
    ensures !token.Given? ==> stored == "false"
  {
    match token
    case Given(s) => Trim(s)
    case _ => "false"
  }

  /** The gate of `getRemoteRepos`: only a missing token and the literal
      "false" close it; any other stored string, even "", opens it. */
  predicate TokenUsable(stored: Option<string>)
    ensures !TokenUsable(stored) <==> stored in {None, Some("false")}
  {
    stored.Some? && stored.value != "false"
  }

  /** After `configure`, remote listing is enabled exactly when a string was
      given whose trimmed form is not "false". */
  lemma ConfiguredGate(token: TokenArg)
    ensures TokenUsable(Some(StoredToken(token))) <==> token.Given? && Trim(token.s) != "false"
  {
  }

  /** `--clear-token` configures the literal "false", which disables remote listing. */
  lemma ClearTokenDisables()
    ensures StoredToken(Given("false")) == "false"
    ensures !TokenUsable(Some(StoredToken(Given("false"))))
  {
    var f := "false";
    assert !IsSpace(f[0]) && f[0] == 'f';
    assert TrimStart(f) == f;
    assert !IsSpace(f[|f| - 1]);
    assert TrimEnd(f) == f;
  }

  class Settings {
    var githubToken: Option<string>
    var selectedRepos: Option<string>

    constructor(githubToken: Option<string>, selectedRepos: Option<string>)
      ensures this.githubToken == githubToken && this.selectedRepos == selectedRepos
    {
      this.githubToken := githubToken;
      this.selectedRepos := selectedRepos;
    }

    /** `configure({ token })`; `announced` is whether it reports "Github token
        set" and authenticates, which it does for any defined value but "false". */
    method Configure(token: TokenArg) returns (announced: bool)
      modifies this`githubToken
      ensures githubToken == Some(StoredToken(token))
      ensures announced == (token != Missing && token != Given("false"))
    {
      githubToken := Some(StoredToken(token));
      announced := token != Missing && token != Given("false");
    }

    /** `localConfig.set('selectedRepos', selections.join(','))`. */
    method SaveSelection(names: seq<string>)
      modifies this`selectedRepos
      ensures selectedRepos == Some(Join(names, ','))
    {
      selectedRepos := Some(Join(names, ','));
    }

    /** `localConfig.get('selectedRepos').split(',')`, when the key is present. */
    function SavedSelection(): (names: Option<seq<string>>)
      reads this
      ensures names.Some? <==> selectedRepos.Some?
      ensures names.Some? ==> |names.value| >= 1 && Join(names.value, ',') == selectedRepos.value
    {
      JoinSplit(if selectedRepos.Some? then selectedRepos.value else "", ',');
      if selectedRepos.Some? then Some(Split(selectedRepos.value, ',')) else None
    }
  }

  /** Saving a non-empty list of comma-free names and loading it gives the list back. */
  lemma {:induction false} SelectionRoundTrip(settings: Settings, names: seq<string>)
    requires settings.selectedRepos == Some(Join(names, ','))
    requires names != []
    requires forall k :: 0 <= k < |names| ==> ',' !in names[k]
    ensures settings.SavedSelection() == Some(names)
  {
    SplitJoin(names, ',');
  }

  /** An empty selection is saved as "", which loads back as one empty name. */
  lemma EmptySelectionRoundTrip(settings: Settings)
    requires settings.selectedRepos == Some(Join([], ','))
    ensures settings.SavedSelection() == Some([""])
  {
  }
}
