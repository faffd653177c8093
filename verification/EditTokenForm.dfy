/** The submit logic of the token edit form: name normalisation, the choice between creating and
    editing, the `oldName` that triggers a rename, and the uniqueness check that gates submission. */
module EditTokenForm {
  import opened Wrappers
  import opened Strings
  import opened Tokens
  import TokenStore

  /** The form's working copy `internalEditToken`. `initialName` is the name the token had when the
      form opened (absent for a new token); `isPristine` marks a token being created. */
  datatype EditToken = EditToken(
    name: string,
    value: TokenValue,
    options: Props,
    initialName: Option<string>,
    isPristine: bool)

  /** An entry of `resolvedTokens`: its name and the set it belongs to (`internal__Parent`). */
  datatype ResolvedToken = ResolvedToken(name: string, parent: string)

  /** What the form dispatches on submit. */
  datatype Action =
    | Create(parent: string, name: string, value: TokenValue, options: Props)
    | Edit(parent: string, name: string, oldName: Option<string>, value: TokenValue, options: Props)

  /** The error text the uniqueness check sets. */
  const UniqueNameError := "Token names must be unique"

  // ---------------------------------------------------------------------------------------------
  // Name normalisation

  /** Every segment of `parts` trimmed. */
  function TrimAll(parts: seq<string>): (r: seq<string>)
    ensures |r| == |parts| && forall i :: 0 <= i < |parts| ==> r[i] == Trim(parts[i])
  {
    if parts == [] then [] else [Trim(parts[0])] + TrimAll(parts[1..])
  }

  /** `name.split('/').map((n) => n.trim()).join('.')`. */
  function NormalizeName(name: string): string {
    Join(TrimAll(Split(name, '/')), '.')
  }

  /** A normalised name never contains `/`. */
  lemma {:induction false} NormalizedHasNoSlash(name: string)
    ensures '/' !in NormalizeName(name)
  {
    var parts := Split(name, '/');
    forall i | 0 <= i < |parts| ensures '/' !in TrimAll(parts)[i] {
      TrimAvoids(parts[i], '/');
    }
    JoinAvoids(TrimAll(parts), '.', '/');
  }

  /** A name without `/` is only trimmed. */
  lemma {:induction false} NormalizeWithoutSlash(name: string)
    requires '/' !in name
    ensures NormalizeName(name) == Trim(name)
  {
  }

  /** Slashes become dots and the space around each segment goes. */
  lemma {:induction false} NormalizeExample()
    ensures NormalizeName("a / b") == "a.b"
  {
    SplitExample();
    TrimAllExample();
    JoinExample();
  }

  /** Both segments of the example trimmed. */
  lemma {:induction false} TrimAllExample()
    ensures TrimAll(["a ", " b"]) == ["a", "b"]
  {
    TrimExample();
    var t := TrimAll(["a ", " b"]);
    assert t[0] == "a" && t[1] == "b";
  }

  /** The trimmed segments of the example joined. */
  lemma {:induction false} JoinExample()
    ensures Join(["a", "b"], '.') == "a.b"
  {
    assert ["a", "b"][1..] == ["b"];
  }

  /** `"a / b".split('/')`. */
  lemma {:induction false} SplitExample()
    ensures Split("a / b", '/') == ["a ", " b"]
  {
    var s := "a / b";
    assert IndexOfChar(s, '/') == 2 by {
      assert s[0] != '/' && s[1..][0] != '/' && s[2..][0] == '/';
    }
    assert s[..2] == "a " && s[3..] == " b";
    assert '/' !in " b";
  }

  /** Trimming both segments of the example. */
  lemma {:induction false} TrimExample()
    ensures Trim("a ") == "a" && Trim(" b") == "b"
  {
    TrimTrailing();
    TrimLeading();
  }

  /** `"a ".trim()`. */
  lemma {:induction false} TrimTrailing()
    ensures Trim("a ") == "a"
  {
    assert !IsWhitespace('a');
    assert TrimStart("a ") == "a ";
    assert "a "[..1] == "a";
    assert TrimEnd("a") == "a";
    assert TrimEnd("a ") == "a";
  }

  /** `" b".trim()`. */
  lemma {:induction false} TrimLeading()
    ensures Trim(" b") == "b"
  {
    assert !IsWhitespace('b');
    assert " b"[1..] == "b";
    assert TrimStart("b") == "b";
    assert TrimStart(" b") == "b";
    assert TrimEnd("b") == "b";
  }

  // ---------------------------------------------------------------------------------------------
  // submitTokenValue

  /** The `oldName` passed on: the initial name, when it is truthy and differs from the name as
      typed (before normalisation). */
  function OldName(initialName: Option<string>, typed: string): (r: Option<string>)
    ensures r.Some? <==> initialName.Some? && initialName.value != "" && initialName.value != typed
    ensures r.Some? ==> r == initialName
  {
    if initialName.Some? && initialName.value != typed && initialName.value != "" then initialName else None
  }

  /** `submitTokenValue(internalEditToken)`: a pristine form creates, any other edits; both in the
      active set and under the normalised name. */
  function SubmitAction(t: EditToken, activeTokenSet: string): (a: Action)
    ensures a.parent == activeTokenSet && a.name == NormalizeName(t.name) && a.value == t.value && a.options == t.options
    ensures a.Create? <==> t.isPristine
    ensures a.Edit? ==> a.oldName == OldName(t.initialName, t.name)
  {
    var oldName := OldName(t.initialName, t.name);
    var newName := NormalizeName(t.name);
    if t.isPristine then Create(activeTokenSet, newName, t.value, t.options)
    else Edit(activeTokenSet, newName, oldName, t.value, t.options)
  }

  /** An edit renames references (the store's `editToken` effect fires) exactly when the initial
      name is truthy and differs both from the name as typed and from the normalised name. A name
      that differs only in spacing or in `/` for `.` passes `oldName` but renames nothing. */
  lemma {:induction false} EditRenamesExactly(t: EditToken, activeTokenSet: string)
    requires !t.isPristine
    ensures var a := SubmitAction(t, activeTokenSet);
      TokenStore.TriggersRename(a.name, a.oldName) <==>
        t.initialName.Some? && t.initialName.value != "" && t.initialName.value != t.name
        && t.initialName.value != NormalizeName(t.name)
  {
  }

  /** Editing `a.b` and typing `a / b` passes `oldName` along, yet renames no reference, since
      the typed name normalises back to the initial one. */
  lemma {:induction false} SpacingOnlyEditDoesNotRename(value: TokenValue, options: Props)
    ensures var a := SubmitAction(EditToken("a / b", value, options, Some("a.b"), false), "global");
      a == Edit("global", "a.b", Some("a.b"), value, options) && !TokenStore.TriggersRename(a.name, a.oldName)
  {
    NormalizeExample();
  }

  // ---------------------------------------------------------------------------------------------
  // Validation

  /** `resolvedTokens.filter((t) => t.internal__Parent === activeTokenSet).find((t) => t.name === name)`. */
  function FindInSet(resolved: seq<ResolvedToken>, activeTokenSet: string, name: string): (r: Option<ResolvedToken>)
    ensures r.Some? <==> exists i :: 0 <= i < |resolved| && resolved[i].parent == activeTokenSet && resolved[i].name == name
    ensures r.Some? ==> r.value in resolved && r.value.parent == activeTokenSet && r.value.name == name
  {
    if resolved == [] then None
    else if resolved[0].parent == activeTokenSet && resolved[0].name == name then Some(resolved[0])
    else
      var r := FindInSet(resolved[1..], activeTokenSet, name);
      assert r.Some? ==> exists i :: 0 <= i < |resolved| && resolved[i].parent == activeTokenSet && resolved[i].name == name by {
        if r.Some? {
          var j :| 0 <= j < |resolved| - 1 && resolved[1..][j].parent == activeTokenSet && resolved[1..][j].name == name;
          assert resolved[j + 1] == resolved[1..][j];
        }
      }
      r
  }

  /** `nameWasChanged`: the name differs from the initial one (always, when there is none). */
  predicate NameWasChanged(t: EditToken) {
    t.initialName != Some(t.name)
  }

  /** The condition under which the effect sets the uniqueness error. */
  predicate RaisesUniqueError(t: EditToken, resolved: seq<ResolvedToken>, activeTokenSet: string) {
    (t.isPristine || NameWasChanged(t)) && FindInSet(resolved, activeTokenSet, t.name).Some?
  }

  /** A token value is truthy unless it is the empty string. */
  predicate ValueIsTruthy(v: TokenValue) {
    !(v.Str? && v.s == "")
  }

  /** `isValid`: a truthy value and no error. */
  predicate IsValid(t: EditToken, error: Option<string>) {
    ValueIsTruthy(t.value) && error.None?
  }

  /** A token being edited under its own unchanged name never clashes with itself. */
  lemma {:induction false} UnchangedNameNeverClashes(t: EditToken, resolved: seq<ResolvedToken>, activeTokenSet: string)
    requires !t.isPristine && t.initialName == Some(t.name)
    ensures !RaisesUniqueError(t, resolved, activeTokenSet)
  {
  }

  /** The form state: the working copy and the error message. */
  class Form {
    var token: EditToken
    var error: Option<string>

    constructor (editToken: EditToken)
      ensures token == editToken && error == None
    {
      token := editToken;
      error := None;
    }

    /** The effect on `[internalEditToken, hasNameThatExistsAlready, nameWasChanged]`: it only ever
        sets the error, never clears it. */
    method CheckUniqueName(resolved: seq<ResolvedToken>, activeTokenSet: string)
      modifies this
      ensures token == old(token)
      ensures error == if RaisesUniqueError(token, resolved, activeTokenSet) then Some(UniqueNameError) else old(error)
    {
      var taken := FindInSet(resolved, activeTokenSet, token.name);
      if (token.isPristine || token.initialName != Some(token.name)) && taken.Some? {
        error := Some(UniqueNameError);
      }
    }

    /** `handleChange` on the name input: the error is cleared. */
    method ChangeName(name: string)
      modifies this
      ensures token == old(token).(name := name) && error == None
    {
      error := None;
      token := token.(name := name);
    }

    /** `handleChange` on the value input, `handleShadowChange` and `handleColorValueChange`: the
        error is cleared. */
    method ChangeValue(value: TokenValue)
      modifies this
      ensures token == old(token).(value := value) && error == None
    {
      error := None;
      token := token.(value := value);
    }

    /** `handleOptionsChange`: one option set; unlike the other handlers it leaves the error as it is. */
    method ChangeOption(name: string, value: string)
      modifies this
      ensures token == old(token).(options := old(token).options[name := value]) && error == old(error)
    {
      token := token.(options := token.options[name := value]);
    }

    /** `handleSubmit`: the action dispatched, if the form is valid. */
    method HandleSubmit(activeTokenSet: string) returns (action: Option<Action>)
      ensures action.Some? <==> IsValid(token, error)
      ensures action.Some? ==> action.value == SubmitAction(token, activeTokenSet)
    {
      if ValueIsTruthy(token.value) && error.None? {
        var oldName := OldName(token.initialName, token.name);
        var newName := NormalizeName(token.name);
        if token.isPristine {
          action := Some(Create(activeTokenSet, newName, token.value, token.options));
        } else {
          action := Some(Edit(activeTokenSet, newName, oldName, token.value, token.options));
        }
      } else {
        action := None;
      }
    }
  }

  /** Once the uniqueness check has fired, nothing is submitted until the name or the value is
      changed again. */
  lemma {:induction false} ClashBlocksSubmit(t: EditToken)
    ensures !IsValid(t, Some(UniqueNameError))
  {
  }
}
