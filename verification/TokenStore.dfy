/** The `tokenState` store: token sets by name, the active and the used sets, and the staging area
    of imported styles, with the reducers that change them. */
module TokenStore {
  import opened Wrappers
  import opened Seqs
  import opened Records
  import opened Tokens

  /** The value stored under a set name: normally an array of tokens, but `undefined` once a rename
      of a missing set or a reorder naming an unknown set has written it. */
  datatype SetValue = Undefined | Defined(tokens: seq<Token>)

  /** `state.tokens`: set names to their tokens, in insertion order. */
  type TokenGroup = Record<SetValue>

  /** `tokens[k]`; a missing property reads as `undefined`. */
  function ValueAt(g: TokenGroup, k: string): (v: SetValue)
    ensures k !in Keys(g) ==> v == Undefined
    ensures k in Keys(g) ==> Get(g, k) == Some(v)
  {
    match Get(g, k)
    case None => Undefined
    case Some(v) => v
  }

  /** The property name `activeTokenSet` indexes with: `undefined` is coerced to `"undefined"`. */
  function SetKey(active: Option<string>): string {
    if active.Some? then active.value else "undefined"
  }

  // ---------------------------------------------------------------------------------------------
  // The token reducers, seen from the group

  /** `{...tokens, [parent]: ts}` for an existing `parent`: the set is replaced where it stands. */
  function WithSet(g: TokenGroup, parent: string, ts: seq<Token>): TokenGroup {
    Put(g, parent, Defined(ts))
  }

  /** Replacing a set keeps the names and their order and touches no other set. */
  lemma {:induction false} WithSetFrame(g: TokenGroup, parent: string, ts: seq<Token>)
    requires Distinct(Keys(g)) && parent in Keys(g)
    ensures Keys(WithSet(g, parent, ts)) == Keys(g)
    ensures forall k :: Get(WithSet(g, parent, ts), k) == if k == parent then Some(Defined(ts)) else Get(g, k)
  {
    PutKeys(g, parent, Defined(ts));
    forall k ensures Get(WithSet(g, parent, ts), k) == if k == parent then Some(Defined(ts)) else Get(g, k) {
      PutGet(g, parent, Defined(ts), k);
    }
  }

  /** Writing a set back with the tokens it already holds gives the same group. */
  lemma {:induction false} WithSetSame(g: TokenGroup, parent: string, ts: seq<Token>)
    requires Distinct(Keys(g)) && Get(g, parent) == Some(Defined(ts))
    ensures WithSet(g, parent, ts) == g
  {
    var i :| 0 <= i < |g| && Keys(g)[i] == parent;
    GetAt(g, i);
    PutSame(g, i);
  }

  /** `createToken` with a name that is already taken leaves the whole group as it was. */
  lemma {:induction false} CreateTakenIsNoOp(g: TokenGroup, parent: string, ts: seq<Token>, name: string, value: TokenValue, options: Props)
    requires Distinct(Keys(g)) && Get(g, parent) == Some(Defined(ts))
    requires exists j :: 0 <= j < |ts| && ts[j].name == name
    ensures WithSet(g, parent, Created(ts, name, value, options)) == g
  {
    CreatedShape(ts, name, value, options);
    WithSetSame(g, parent, ts);
  }

  /** `duplicateToken` and `editToken` without a token of the searched name leave the group as it was. */
  lemma {:induction false} NotFoundIsNoOp(g: TokenGroup, parent: string, ts: seq<Token>, find: string, name: string, value: TokenValue, options: Props)
    requires Distinct(Keys(g)) && Get(g, parent) == Some(Defined(ts))
    requires forall j :: 0 <= j < |ts| ==> ts[j].name != find
    ensures WithSet(g, parent, Duplicated(ts, find)) == g
    ensures WithSet(g, parent, Edited(ts, find, name, value, options)) == g
  {
    WithSetSame(g, parent, ts);
  }

  // ---------------------------------------------------------------------------------------------
  // The set reducers

  /** `usedTokenSet` after `toggleUsedTokenSet(data)`. */
  function Toggled(used: seq<string>, data: string): seq<string> {
    if data in used then Filter(used, (n: string) => n != data) else Dedup(used + [data])
  }

  /** Toggling flips whether `data` is used and no other set's. */
  lemma {:induction false} ToggleFlips(used: seq<string>, data: string)
    ensures data in Toggled(used, data) <==> data !in used
    ensures forall x :: x != data ==> (x in Toggled(used, data) <==> x in used)
  {
    if data in used {
      forall x ensures x in Toggled(used, data) <==> x in used && x != data {
        FilterMembership(used, (n: string) => n != data, x);
      }
    } else {
      forall x ensures x in Toggled(used, data) <==> x in used + [data] {
        DedupMembership(used + [data], x);
      }
    }
  }

  /** Turning a set on appends it to a list without repeats, which stays without repeats. */
  lemma {:induction false} ToggleOnAppends(used: seq<string>, data: string)
    requires Distinct(used) && data !in used
    ensures Toggled(used, data) == used + [data]
    ensures Distinct(Toggled(used, data))
  {
    DedupOfDistinct(used + [data]);
  }

  /** `tokens` after `addTokenSet(name)`. */
  function AddedSet(g: TokenGroup, name: string): TokenGroup {
    if name in Keys(g) then g else Put(g, name, Defined([]))
  }

  /** Adding an existing set changes nothing; a new one is appended, empty, after all the others. */
  lemma {:induction false} AddedSetShape(g: TokenGroup, name: string)
    ensures name in Keys(g) ==> AddedSet(g, name) == g
    ensures name !in Keys(g) ==> AddedSet(g, name) == g + [(name, Defined([]))]
  {
    if name !in Keys(g) {
      PutAppends(g, name, Defined([]));
    }
  }

  /** `activeTokenSet` after `deleteTokenSet(data)`, given the group that remains: the first
      remaining name (or `undefined`) when the deleted set was active. */
  function ActiveAfterDelete(rest: TokenGroup, active: Option<string>, data: string): Option<string> {
    if active == Some(data) then (if rest == [] then None else Some(rest[0].0)) else active
  }

  /** Deleting a set keeps the active pointer on an existing set; it becomes `undefined` only when
      the last set was the active one. */
  lemma {:induction false} DeleteSetKeepsActiveValid(g: TokenGroup, active: Option<string>, data: string)
    requires Distinct(Keys(g)) && (active.Some? ==> active.value in Keys(g))
    ensures var rest := Delete(g, data);
      var a := ActiveAfterDelete(rest, active, data);
      && Distinct(Keys(rest))
      && (a.Some? ==> a.value in Keys(rest) && a.value != data)
      && (a.None? <==> active.None? || (active == Some(data) && rest == []))
  {
    var rest := Delete(g, data);
    DeleteKeys(g, data);
    if rest != [] {
      assert Keys(rest)[0] == rest[0].0;
    }
  }

  /** `tokens` after `renameTokenSet`: `tokens[newName] = tokens[oldName]`, then
      `delete tokens[oldName]`. */
  function Renamed(g: TokenGroup, oldName: string, newName: string): TokenGroup {
    Delete(Put(g, newName, ValueAt(g, oldName)), oldName)
  }

  /** `activeTokenSet` after `renameTokenSet`: it follows the renamed set. */
  function ActiveAfterRename(active: Option<string>, oldName: string, newName: string): Option<string> {
    if active == Some(oldName) then Some(newName) else active
  }

  /** Renaming moves the value under the new name, drops the old name and leaves every other set
      alone; a new name goes to the end of the order, an existing one is overwritten in place. */
  lemma {:induction false} RenamedMoves(g: TokenGroup, oldName: string, newName: string)
    requires Distinct(Keys(g)) && oldName != newName
    ensures var r := Renamed(g, oldName, newName);
      && Distinct(Keys(r))
      && (forall k :: k in Keys(r) <==> (k in Keys(g) || k == newName) && k != oldName)
      && Get(r, newName) == Some(ValueAt(g, oldName))
      && Get(r, oldName) == None
      && (forall k :: k != oldName && k != newName ==> Get(r, k) == Get(g, k))
      && (newName !in Keys(g) ==> r == Delete(g, oldName) + [(newName, ValueAt(g, oldName))])
  {
    var v := ValueAt(g, oldName);
    var p := Put(g, newName, v);
    PutKeys(g, newName, v);
    DeleteKeys(p, oldName);
    forall k ensures Get(Delete(p, oldName), k) == if k == oldName then None else if k == newName then Some(v) else Get(g, k) {
      PutGet(g, newName, v, k);
      DeleteGet(p, oldName, k);
    }
    if newName !in Keys(g) {
      PutAppends(g, newName, v);
      DeleteAppend(g, newName, v, oldName);
    }
  }

  /** Renaming a set to its own name deletes it, and an active pointer on it is left dangling. */
  lemma {:induction false} RenameToSelfDeletes(g: TokenGroup, name: string)
    ensures Renamed(g, name, name) == Delete(g, name)
    ensures ActiveAfterRename(Some(name), name, name) == Some(name)
    ensures name !in Keys(Renamed(g, name, name))
  {
    DeletePut(g, name, ValueAt(g, name));
    assert Get(Delete(g, name), name) == None by { DeleteGet(g, name, name); }
  }

  /** With distinct names, the active pointer follows a rename to an existing set. */
  lemma {:induction false} RenameKeepsActiveValid(g: TokenGroup, active: Option<string>, oldName: string, newName: string)
    requires Distinct(Keys(g)) && oldName != newName && (active.Some? ==> active.value in Keys(g))
    ensures var a := ActiveAfterRename(active, oldName, newName);
      a.Some? ==> a.value in Keys(Renamed(g, oldName, newName))
  {
    RenamedMoves(g, oldName, newName);
  }

  /** The group `setTokenSetOrder(list)` builds: `Object.assign(newTokens, {[set]: tokens[set]})`
      for every listed name in turn. */
  function Reordered(g: TokenGroup, list: seq<string>): TokenGroup {
    if list == [] then []
    else
      var k := list[|list| - 1];
      Put(Reordered(g, list[..|list| - 1]), k, ValueAt(g, k))
  }

  /** The reordered group has exactly the listed names, each once, in the order of their first
      mention. */
  lemma {:induction false} ReorderedKeys(g: TokenGroup, list: seq<string>)
    ensures Keys(Reordered(g, list)) == Dedup(list)
  {
    if list != [] {
      var init, k := list[..|list| - 1], list[|list| - 1];
      ReorderedKeys(g, init);
      DedupDistinct(init);
      DedupMembership(init, k);
      PutKeys(Reordered(g, init), k, ValueAt(g, k));
    }
  }

  /** Each listed name is bound to its old value (`undefined` for an unknown name); unlisted sets
      are gone. */
  lemma {:induction false} ReorderedGet(g: TokenGroup, list: seq<string>, x: string)
    ensures Get(Reordered(g, list), x) == if x in list then Some(ValueAt(g, x)) else None
  {
    if list != [] {
      var init, k := list[..|list| - 1], list[|list| - 1];
      ReorderedGet(g, init, x);
      PutGet(Reordered(g, init), k, ValueAt(g, k), x);
      assert list == init + [k];
    }
  }

  /** Listing the sets in their present order rebuilds the same group. */
  lemma {:induction false} ReorderSameOrder(g: TokenGroup)
    requires Distinct(Keys(g))
    ensures Reordered(g, Keys(g)) == g
  {
    ReorderPrefix(g, |g|);
    assert Keys(g)[..|g|] == Keys(g);
    assert g[..|g|] == g;
  }

  /** Helper for `ReorderSameOrder`: reordering by the first `n` names gives the first `n` sets. */
  lemma {:induction false} ReorderPrefix(g: TokenGroup, n: nat)
    requires Distinct(Keys(g)) && n <= |g|
    ensures Reordered(g, Keys(g)[..n]) == g[..n]
  {
    if n > 0 {
      ReorderPrefix(g, n - 1);
      GetAt(g, n - 1);
      KeysPrefix(g, n - 1);
      ReorderStep(g, n);
    }
  }

  /** The step of `ReorderPrefix`: the next name is new, so its set is appended. */
  lemma {:induction false} ReorderStep(g: TokenGroup, n: nat)
    requires 0 < n <= |g|
    requires Reordered(g, Keys(g)[..n - 1]) == g[..n - 1]
    requires g[n - 1].0 !in Keys(g)[..n - 1] && ValueAt(g, g[n - 1].0) == g[n - 1].1
    ensures Reordered(g, Keys(g)[..n]) == g[..n]
  {
    var k, v := g[n - 1].0, g[n - 1].1;
    PrefixOfPrefix(Keys(g), n, n - 1);
    KeysPrefix(g, n - 1);
    PutAppends(g[..n - 1], k, v);
    PrefixSnoc(g, n);
  }

  // ---------------------------------------------------------------------------------------------
  // updateAliases over the whole group

  /** The group `updateAliases` builds with `Object.entries(tokens).reduce(...)`, or `None` when
      some set is `undefined` (its `values.map` throws). */
  function RewriteGroup(g: TokenGroup, replace: Replacer, oldName: string, newName: string): Option<TokenGroup> {
    if g == [] then Some([])
    else
      match RewriteGroup(g[..|g| - 1], replace, oldName, newName)
      case None => None
      case Some(acc) =>
        match g[|g| - 1].1
        case Undefined => None
        case Defined(ts) => Some(Put(acc, g[|g| - 1].0, Defined(RewriteSet(ts, replace, oldName, newName))))
  }

  /** The sweep throws exactly when some set is `undefined`. */
  lemma {:induction false} RewriteGroupDefined(g: TokenGroup, replace: Replacer, oldName: string, newName: string)
    ensures RewriteGroup(g, replace, oldName, newName).Some? <==> forall i :: 0 <= i < |g| ==> g[i].1.Defined?
  {
    if g != [] {
      var init := g[..|g| - 1];
      RewriteGroupDefined(init, replace, oldName, newName);
      assert forall i :: 0 <= i < |init| ==> init[i] == g[i];
    }
  }

  /** When the sweep succeeds it keeps every set name in its place and rewrites every set with
      `RewriteSet`. */
  lemma {:induction false} RewriteGroupShape(g: TokenGroup, replace: Replacer, oldName: string, newName: string)
    requires Distinct(Keys(g))
    requires RewriteGroup(g, replace, oldName, newName).Some?
    ensures var r := RewriteGroup(g, replace, oldName, newName).value;
      && |r| == |g|
      && forall i :: 0 <= i < |g| ==>
           r[i].0 == g[i].0 && g[i].1.Defined? && r[i].1 == Defined(RewriteSet(g[i].1.tokens, replace, oldName, newName))
  {
    if g != [] {
      var init, last := g[..|g| - 1], g[|g| - 1];
      KeysPrefix(g, |g| - 1);
      assert Distinct(Keys(init)) && last.0 !in Keys(init) by {
        KeysInit(g);
      }
      RewriteGroupShape(init, replace, oldName, newName);
      var acc := RewriteGroup(init, replace, oldName, newName).value;
      assert Keys(acc) == Keys(init);
      var v := Defined(RewriteSet(last.1.tokens, replace, oldName, newName));
      PutAppends(acc, last.0, v);
      assert RewriteGroup(g, replace, oldName, newName).value == acc + [(last.0, v)];
    }
  }

  /** The reduce of `updateAliases`: each entry in order, its rewritten tokens assigned into the
      accumulator; it throws at the first `undefined` set. */
  method RewriteAliases(g: TokenGroup, replace: Replacer, oldName: string, newName: string) returns (r: Option<TokenGroup>)
    ensures r == RewriteGroup(g, replace, oldName, newName)
  {
    var acc: TokenGroup := [];
    var i := 0;
    while i < |g|
      invariant 0 <= i <= |g|
      invariant RewriteGroup(g[..i], replace, oldName, newName) == Some(acc)
    {
      assert g[..i + 1][..i] == g[..i];
      match g[i].1 {
        case Undefined =>
          RewriteGroupDefined(g[..i + 1], replace, oldName, newName);
          RewriteGroupDefined(g, replace, oldName, newName);
          assert g[..i + 1][i] == g[i];
          return None;
        case Defined(ts) =>
          acc := Put(acc, g[i].0, Defined(RewriteSet(ts, replace, oldName, newName)));
      }
      i := i + 1;
    }
    assert g[..i] == g;
    r := Some(acc);
  }

  /** The `editToken` effect dispatches `updateAliases` exactly when `oldName` is truthy and
      differs from the new name. */
  predicate TriggersRename(name: string, oldName: Option<string>) {
    oldName.Some? && oldName.value != "" && oldName.value != name
  }

  /** The token `editToken` overwrites is the one whose references the effect then renames: the
      lookup name is `oldName` exactly when a rename is dispatched, and `name` otherwise. */
  lemma {:induction false} EditLookupMatchesRename(name: string, oldName: Option<string>)
    ensures NameToFind(name, oldName) == if TriggersRename(name, oldName) then oldName.value else name
  {
  }

  // ---------------------------------------------------------------------------------------------
  // The store

  /** The part of the `tokenState` model the reducers below read and write. */
  class TokenStore {
    var tokens: TokenGroup
    var activeTokenSet: Option<string>
    var usedTokenSet: seq<string>
    var importedTokens: Imported

    /** A JavaScript object never holds the same property twice. */
    predicate Valid()
      reads this
    {
      Distinct(Keys(tokens))
    }

    /** The initial state: one empty set `global`, active and used, and nothing imported. */
    constructor ()
      ensures Valid()
      ensures tokens == [("global", Defined([]))]
      ensures activeTokenSet == Some("global") && usedTokenSet == ["global"]
      ensures importedTokens == Imported([], [])
    {
      tokens := [("global", Defined([]))];
      activeTokenSet := Some("global");
      usedTokenSet := ["global"];
      importedTokens := Imported([], []);
    }

    /** `toggleUsedTokenSet(data)`. */
    method ToggleUsedTokenSet(data: string)
      requires Valid()
      modifies this
      ensures Valid()
      ensures usedTokenSet == Toggled(old(usedTokenSet), data)
      ensures tokens == old(tokens) && activeTokenSet == old(activeTokenSet) && importedTokens == old(importedTokens)
    {
      if data in usedTokenSet {
        usedTokenSet := Filter(usedTokenSet, (n: string) => n != data);
      } else {
        usedTokenSet := Dedup(usedTokenSet + [data]);
      }
    }

    /** `addTokenSet(name)`. */
    method AddTokenSet(name: string)
      requires Valid()
      modifies this
      ensures Valid()
      ensures tokens == AddedSet(old(tokens), name)
      ensures activeTokenSet == old(activeTokenSet) && usedTokenSet == old(usedTokenSet) && importedTokens == old(importedTokens)
    {
      if name !in Keys(tokens) {
        PutKeys(tokens, name, Defined([]));
        tokens := Put(tokens, name, Defined([]));
      }
    }

    /** `deleteTokenSet(data)`: `delete tokens[data]`, then the active pointer moves to the first
        remaining set if it was on the deleted one. */
    method DeleteTokenSet(data: string)
      requires Valid()
      modifies this
      ensures Valid()
      ensures tokens == Delete(old(tokens), data)
      ensures activeTokenSet == ActiveAfterDelete(tokens, old(activeTokenSet), data)
      ensures usedTokenSet == old(usedTokenSet) && importedTokens == old(importedTokens)
    {
      DeleteKeys(tokens, data);
      tokens := Delete(tokens, data);
      if activeTokenSet == Some(data) {
        activeTokenSet := if tokens == [] then None else Some(tokens[0].0);
      }
    }

    /** `renameTokenSet({oldName, newName})`. */
    method RenameTokenSet(oldName: string, newName: string)
      requires Valid()
      modifies this
      ensures Valid()
      ensures tokens == Renamed(old(tokens), oldName, newName)
      ensures activeTokenSet == ActiveAfterRename(old(activeTokenSet), oldName, newName)
      ensures usedTokenSet == old(usedTokenSet) && importedTokens == old(importedTokens)
    {
      var v := ValueAt(tokens, oldName);
      PutKeys(tokens, newName, v);
      tokens := Put(tokens, newName, v);
      DeleteKeys(tokens, oldName);
      tokens := Delete(tokens, oldName);
      if activeTokenSet == Some(oldName) {
        activeTokenSet := Some(newName);
      }
    }

    /** `setTokenSetOrder(list)`: a fresh object filled by one `Object.assign` per listed name. */
    method SetTokenSetOrder(list: seq<string>)
      requires Valid()
      modifies this
      ensures Valid()
      ensures tokens == Reordered(old(tokens), list)
      ensures activeTokenSet == old(activeTokenSet) && usedTokenSet == old(usedTokenSet) && importedTokens == old(importedTokens)
    {
      var newTokens: TokenGroup := [];
      var i := 0;
      while i < |list|
        invariant 0 <= i <= |list|
        invariant newTokens == Reordered(tokens, list[..i])
      {
        assert list[..i + 1][..i] == list[..i];
        newTokens := Put(newTokens, list[i], ValueAt(tokens, list[i]));
        i := i + 1;
      }
      assert list[..i] == list;
      ReorderedKeys(tokens, list);
      DedupDistinct(list);
      tokens := newTokens;
    }

    /** `tokens: {...state.tokens, [parent]: ts}` for an existing set: it is replaced where it stands. */
    method WriteSet(parent: string, ts: seq<Token>)
      requires Valid() && parent in Keys(tokens)
      modifies this
      ensures Valid()
      ensures tokens == WithSet(old(tokens), parent, ts)
      ensures activeTokenSet == old(activeTokenSet) && usedTokenSet == old(usedTokenSet) && importedTokens == old(importedTokens)
    {
      PutKeys(tokens, parent, Defined(ts));
      tokens := Put(tokens, parent, Defined(ts));
    }

    /** `createToken({parent, name, value, options})`; it throws when `parent` is not a set. */
    method CreateToken(parent: string, name: string, value: TokenValue, options: Props) returns (outcome: Outcome)
      requires Valid()
      modifies this
      ensures Valid()
      ensures match ValueAt(old(tokens), parent)
        case Undefined => outcome == Fail(MissingParentSet(parent)) && tokens == old(tokens)
        case Defined(ts) => outcome == Pass && tokens == WithSet(old(tokens), parent, Created(ts, name, value, options))
      ensures activeTokenSet == old(activeTokenSet) && usedTokenSet == old(usedTokenSet) && importedTokens == old(importedTokens)
    {
      match ValueAt(tokens, parent) {
        case Undefined =>
          outcome := Fail(MissingParentSet(parent));
        case Defined(ts) =>
          if IndexOfName(ts, name) < 0 {
            WriteSet(parent, ts + [NewToken(name, value, options)]);
          } else {
            WithSetSame(tokens, parent, ts);
          }
          outcome := Pass;
      }
    }

    /** `duplicateToken({parent, name})`: the set's array is spliced in place. */
    method DuplicateToken(parent: string, name: string) returns (outcome: Outcome)
      requires Valid()
      modifies this
      ensures Valid()
      ensures match ValueAt(old(tokens), parent)
        case Undefined => outcome == Fail(MissingParentSet(parent)) && tokens == old(tokens)
        case Defined(ts) => outcome == Pass && tokens == WithSet(old(tokens), parent, Duplicated(ts, name))
      ensures activeTokenSet == old(activeTokenSet) && usedTokenSet == old(usedTokenSet) && importedTokens == old(importedTokens)
    {
      match ValueAt(tokens, parent) {
        case Undefined =>
          outcome := Fail(MissingParentSet(parent));
        case Defined(ts) =>
          var i := IndexOfName(ts, name);
          if i > -1 {
            var spliced := ts[..i + 1] + [ts[i].(name := CopyName(name))] + ts[i + 1..];
            WriteSet(parent, spliced);
          } else {
            WithSetSame(tokens, parent, ts);
          }
          outcome := Pass;
      }
    }

    /** `editToken({parent, name, value, options, oldName})`: the found element is overwritten in
        place; without one the write goes to the array's `-1` property and no element changes. */
    method EditToken(parent: string, name: string, value: TokenValue, options: Props, oldName: Option<string>)
      returns (outcome: Outcome)
      requires Valid()
      modifies this
      ensures Valid()
      ensures match ValueAt(old(tokens), parent)
        case Undefined => outcome == Fail(MissingParentSet(parent)) && tokens == old(tokens)
        case Defined(ts) =>
          outcome == Pass && tokens == WithSet(old(tokens), parent, Edited(ts, NameToFind(name, oldName), name, value, options))
      ensures activeTokenSet == old(activeTokenSet) && usedTokenSet == old(usedTokenSet) && importedTokens == old(importedTokens)
    {
      match ValueAt(tokens, parent) {
        case Undefined =>
          outcome := Fail(MissingParentSet(parent));
        case Defined(ts) =>
          var find := if oldName.Some? && oldName.value != "" then oldName.value else name;
          var index := IndexOfName(ts, find);
          if index >= 0 {
            var newArray := ts[index := WithOptions(ts[index].(name := name, value := value), options)];
            WriteSet(parent, newArray);
          } else {
            WithSetSame(tokens, parent, ts);
          }
          outcome := Pass;
      }
    }

    /** `deleteToken({parent, path})`. */
    method DeleteToken(parent: string, path: string) returns (outcome: Outcome)
      requires Valid()
      modifies this
      ensures Valid()
      ensures match ValueAt(old(tokens), parent)
        case Undefined => outcome == Fail(MissingParentSet(parent)) && tokens == old(tokens)
        case Defined(ts) => outcome == Pass && tokens == WithSet(old(tokens), parent, WithoutName(ts, path))
      ensures activeTokenSet == old(activeTokenSet) && usedTokenSet == old(usedTokenSet) && importedTokens == old(importedTokens)
    {
      match ValueAt(tokens, parent) {
        case Undefined =>
          outcome := Fail(MissingParentSet(parent));
        case Defined(ts) =>
          WriteSet(parent, WithoutName(ts, path));
          outcome := Pass;
      }
    }

    /** `deleteTokenGroup({parent, path})`. */
    method DeleteTokenGroup(parent: string, path: string) returns (outcome: Outcome)
      requires Valid()
      modifies this
      ensures Valid()
      ensures match ValueAt(old(tokens), parent)
        case Undefined => outcome == Fail(MissingParentSet(parent)) && tokens == old(tokens)
        case Defined(ts) => outcome == Pass && tokens == WithSet(old(tokens), parent, WithoutPrefix(ts, path))
      ensures activeTokenSet == old(activeTokenSet) && usedTokenSet == old(usedTokenSet) && importedTokens == old(importedTokens)
    {
      match ValueAt(tokens, parent) {
        case Undefined =>
          outcome := Fail(MissingParentSet(parent));
        case Defined(ts) =>
          WriteSet(parent, WithoutPrefix(ts, path));
          outcome := Pass;
      }
    }

    /** `updateAliases({oldName, newName})`; it throws on the first `undefined` set. */
    method UpdateAliases(replace: Replacer, oldName: string, newName: string) returns (outcome: Outcome)
      requires Valid()
      modifies this
      ensures Valid()
      ensures match RewriteGroup(old(tokens), replace, oldName, newName)
        case None => outcome.Fail? && tokens == old(tokens)
        case Some(r) => outcome == Pass && tokens == r
      ensures activeTokenSet == old(activeTokenSet) && usedTokenSet == old(usedTokenSet) && importedTokens == old(importedTokens)
    {
      var r := RewriteAliases(tokens, replace, oldName, newName);
      match r {
        case None =>
          outcome := Fail(MissingParentSet(FirstUndefined(tokens)));
        case Some(g) =>
          RewriteGroupShape(tokens, replace, oldName, newName);
          assert Keys(g) == Keys(tokens);
          tokens := g;
          outcome := Pass;
      }
    }

    /** `setTokensFromStyles(receivedStyles)`: the received groups are classified against the
        active set; the first lookup throws when the active set is missing or `undefined`. */
    method SetTokensFromStyles(styles: seq<seq<Token>>) returns (outcome: Outcome)
      requires Valid()
      modifies this
      ensures Valid()
      ensures var active := ValueAt(old(tokens), SetKey(old(activeTokenSet)));
        if active.Undefined? && Flatten(styles) != [] then
          outcome == Fail(MissingParentSet(SetKey(old(activeTokenSet)))) && importedTokens == old(importedTokens)
        else
          outcome == Pass && importedTokens == Classify(if active.Defined? then active.tokens else [], Flatten(styles))
      ensures tokens == old(tokens) && activeTokenSet == old(activeTokenSet) && usedTokenSet == old(usedTokenSet)
    {
      var key := SetKey(activeTokenSet);
      var active := ValueAt(tokens, key);
      if active.Undefined? && Flatten(styles) != [] {
        outcome := Fail(MissingParentSet(key));
      } else {
        importedTokens := ClassifyStyles(if active.Defined? then active.tokens else [], styles);
        outcome := Pass;
      }
    }

    /** A dispatch of `editToken`: the reducer, then the effect, which sweeps references to the old
        name when the token was renamed. */
    method DispatchEditToken(parent: string, name: string, value: TokenValue, options: Props, oldName: Option<string>,
                             replace: Replacer)
      returns (outcome: Outcome)
      requires Valid()
      modifies this
      ensures Valid()
      ensures match ValueAt(old(tokens), parent)
        case Undefined => outcome == Fail(MissingParentSet(parent)) && tokens == old(tokens)
        case Defined(ts) =>
          var edited := WithSet(old(tokens), parent, Edited(ts, NameToFind(name, oldName), name, value, options));
          if !TriggersRename(name, oldName) then outcome == Pass && tokens == edited
          else match RewriteGroup(edited, replace, oldName.value, name)
            case None => outcome.Fail? && tokens == edited
            case Some(r) => outcome == Pass && tokens == r
      ensures activeTokenSet == old(activeTokenSet) && usedTokenSet == old(usedTokenSet) && importedTokens == old(importedTokens)
    {
      outcome := EditToken(parent, name, value, options, oldName);
      if outcome == Pass && oldName.Some? && oldName.value != "" && oldName.value != name {
        outcome := UpdateAliases(replace, oldName.value, name);
      }
    }
  }

  /** The name of the first `undefined` set, the one `updateAliases` throws on. */
  function FirstUndefined(g: TokenGroup): string {
    if g == [] then "" else if g[0].1.Undefined? then g[0].0 else FirstUndefined(g[1..])
  }
}
