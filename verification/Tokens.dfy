/** Tokens and what the store reducers do to the token sequence of one set. */
module Tokens {
  import opened Wrappers
  import opened Seqs
  import opened Strings

  /** A flat object of string properties (a typography value, one shadow layer, a token's options).
      Property order is not modelled: lodash `isEqual` ignores it. */
  type Props = map<string, string>

  /** A token value: a string that may hold `{alias}` references, a flat object, or a list of flat
      objects (a multi-layer shadow). */
  datatype TokenValue = Str(s: string) | Obj(props: Props) | Arr(items: seq<Props>)

  /** `{name, value, ...options}`; `fields` holds every property other than `name` and `value`
      (`description`, `type`, ...). */
  datatype Token = Token(name: string, value: TokenValue, fields: Props)

  /** `token.description`, `None` when it is undefined. */
  function Description(t: Token): Option<string> {
    if "description" in t.fields then Some(t.fields["description"]) else None
  }

  /** `{...t, ...options}`: the options are spread last, so they override `name` and `value` too. */
  function WithOptions(t: Token, options: Props): Token {
    Token(
      if "name" in options then options["name"] else t.name,
      if "value" in options then Str(options["value"]) else t.value,
      t.fields + (options - {"name", "value"}))
  }

  /** `ts.findIndex((n) => n.name === name)`: the first index carrying `name`, or -1. */
  function IndexOfName(ts: seq<Token>, name: string): (i: int)
    ensures -1 <= i < |ts|
    ensures i >= 0 ==> ts[i].name == name && forall j :: 0 <= j < i ==> ts[j].name != name
    ensures i == -1 ==> forall j :: 0 <= j < |ts| ==> ts[j].name != name
  {
    if ts == [] then -1
    else if ts[0].name == name then 0
    else
      var k := IndexOfName(ts[1..], name);
      if k == -1 then -1 else k + 1
  }

  /** `ts.find((n) => n.name === name)`. */
  function Find(ts: seq<Token>, name: string): Option<Token> {
    var i := IndexOfName(ts, name);
    if i < 0 then None else Some(ts[i])
  }

  // ---------------------------------------------------------------------------------------------
  // createToken, duplicateToken, editToken, deleteToken, deleteTokenGroup on one set

  /** The token `createToken` builds: `{name, value, ...options}`. */
  function NewToken(name: string, value: TokenValue, options: Props): Token {
    WithOptions(Token(name, value, map[]), options)
  }

  /** The set after `createToken`: unchanged when the name is taken, else the new token appended. */
  function Created(ts: seq<Token>, name: string, value: TokenValue, options: Props): seq<Token> {
    if IndexOfName(ts, name) >= 0 then ts else ts + [NewToken(name, value, options)]
  }

  /** Creating a token never disturbs the set: a taken name leaves it as it was, and otherwise
      exactly one token is added, at the end, after all the old ones. */
  lemma {:induction false} CreatedShape(ts: seq<Token>, name: string, value: TokenValue, options: Props)
    ensures (exists j :: 0 <= j < |ts| && ts[j].name == name) ==> Created(ts, name, value, options) == ts
    ensures (forall j :: 0 <= j < |ts| ==> ts[j].name != name) ==>
      var r := Created(ts, name, value, options);
      |r| == |ts| + 1 && r[..|ts|] == ts && r[|ts|] == NewToken(name, value, options)
  {
  }

  /** The name `duplicateToken` gives the copy. */
  function CopyName(name: string): string {
    name + "-copy"
  }

  /** The set after `duplicateToken`: a copy of the first token named `name`, renamed, spliced in
      right after it; unchanged when there is no such token. */
  function Duplicated(ts: seq<Token>, name: string): seq<Token> {
    var i := IndexOfName(ts, name);
    if i < 0 then ts else ts[..i + 1] + [ts[i].(name := CopyName(name))] + ts[i + 1..]
  }

  /** Duplication inserts one element: the copy sits right after the original, and taking it out
      again gives back the set as it was, so every other token keeps its relative order. */
  lemma {:induction false} DuplicatedShape(ts: seq<Token>, name: string)
    ensures IndexOfName(ts, name) < 0 ==> Duplicated(ts, name) == ts
    ensures IndexOfName(ts, name) >= 0 ==>
      var i, r := IndexOfName(ts, name), Duplicated(ts, name);
      && |r| == |ts| + 1
      && r[i] == ts[i] && r[i].name == name
      && r[i + 1] == ts[i].(name := CopyName(name))
      && r[..i + 1] + r[i + 2..] == ts
  {
    var i, r := IndexOfName(ts, name), Duplicated(ts, name);
    if i >= 0 {
      var c := ts[i].(name := CopyName(name));
      assert r == ts[..i + 1] + [c] + ts[i + 1..];
      InsertAfter(ts, i, c);
      assert |r| == |ts| + 1 && r[i] == ts[i] && r[i + 1] == c && r[..i + 1] + r[i + 2..] == ts;
    }
  }

  /** The copy's name is not checked against the set: duplicating the same token twice leaves two
      tokens named `name-copy`, the newer one first. */
  lemma {:induction false} DuplicateTwiceRepeatsName(t: Token)
    ensures var c := t.(name := CopyName(t.name));
      Duplicated(Duplicated([t], t.name), t.name) == [t, c, c]
  {
    var c := t.(name := CopyName(t.name));
    assert Duplicated([t], t.name) == [t, c];
    assert IndexOfName([t, c], t.name) == 0;
  }

  /** The token `editToken` looks for: `oldName` when it is truthy, else `name`. */
  function NameToFind(name: string, oldName: Option<string>): string {
    if oldName.Some? && oldName.value != "" then oldName.value else name
  }

  /** The set after `editToken`: the first token named `find` overwritten in place with
      `{...old, name, value, ...options}`; unchanged when there is none (the assignment then goes
      to the array's `-1` property, not to an element). */
  function Edited(ts: seq<Token>, find: string, name: string, value: TokenValue, options: Props): seq<Token> {
    var i := IndexOfName(ts, find);
    if i < 0 then ts else ts[i := WithOptions(ts[i].(name := name, value := value), options)]
  }

  /** Editing keeps the length and every other token; the edited one keeps its position, its
      other fields unless the options override them, and gains every option other than `name` and
      `value`, and no other field. */
  lemma {:induction false} EditedShape(ts: seq<Token>, find: string, name: string, value: TokenValue, options: Props)
    ensures var r := Edited(ts, find, name, value, options);
      && |r| == |ts|
      && (forall j :: 0 <= j < |ts| && j != IndexOfName(ts, find) ==> r[j] == ts[j])
      && (IndexOfName(ts, find) >= 0 ==>
            var i := IndexOfName(ts, find);
            && ts[i].name == find
            && r[i].name == (if "name" in options then options["name"] else name)
            && r[i].value == (if "value" in options then Str(options["value"]) else value)
            && (forall k :: k in ts[i].fields && k !in options ==> k in r[i].fields && r[i].fields[k] == ts[i].fields[k])
            && (forall k :: k in options && k != "name" && k != "value" ==> k in r[i].fields && r[i].fields[k] == options[k])
            && r[i].fields.Keys == ts[i].fields.Keys + (options.Keys - {"name", "value"}))
  {
  }

  /** The set after `deleteToken`: every token named exactly `path` removed. */
  function WithoutName(ts: seq<Token>, path: string): seq<Token> {
    Filter(ts, (t: Token) => t.name != path)
  }

  /** The set after `deleteTokenGroup`: every token whose name literally starts with `prefix`
      removed (a string prefix, not a path-segment match). */
  function WithoutPrefix(ts: seq<Token>, prefix: string): seq<Token> {
    Filter(ts, (t: Token) => !StartsWith(t.name, prefix))
  }

  /** `deleteToken` keeps exactly the tokens with another name. */
  lemma {:induction false} WithoutNameMembership(ts: seq<Token>, path: string)
    ensures forall t :: t in WithoutName(ts, path) <==> t in ts && t.name != path
  {
    forall t { FilterMembership(ts, (t: Token) => t.name != path, t); }
  }

  /** `deleteTokenGroup` keeps exactly the tokens whose name does not start with `prefix`. */
  lemma {:induction false} WithoutPrefixMembership(ts: seq<Token>, prefix: string)
    ensures forall t :: t in WithoutPrefix(ts, prefix) <==> t in ts && !StartsWith(t.name, prefix)
  {
    forall t { FilterMembership(ts, (t: Token) => !StartsWith(t.name, prefix), t); }
  }

  /** Both deletions keep the survivors in their original order: deleting from a concatenation
      is the concatenation of the deletions. */
  lemma {:induction false} DeletionsKeepOrder(a: seq<Token>, b: seq<Token>, path: string)
    ensures WithoutName(a + b, path) == WithoutName(a, path) + WithoutName(b, path)
    ensures WithoutPrefix(a + b, path) == WithoutPrefix(a, path) + WithoutPrefix(b, path)
  {
    FilterAppend(a, b, (t: Token) => t.name != path);
    FilterAppend(a, b, (t: Token) => !StartsWith(t.name, path));
  }

  /** The prefix is literal: deleting the group `button.` removes `button.bg` and
      `button.label.color` but keeps `buttonGroup.bg`. */
  lemma {:induction false} GroupPrefixIsLiteral(v: TokenValue)
    ensures
      var bg, labelColor, group := Token("button.bg", v, map[]), Token("button.label.color", v, map[]),
                              Token("buttonGroup.bg", v, map[]);
      WithoutPrefix([bg, labelColor, group], "button.") == [group]
  {
    var bg, labelColor, group := Token("button.bg", v, map[]), Token("button.label.color", v, map[]),
                            Token("buttonGroup.bg", v, map[]);
    assert StartsWith(bg.name, "button.") && StartsWith(labelColor.name, "button.");
    assert !StartsWith(group.name, "button.") by { assert group.name[6] != '.'; }
    assert WithoutPrefix([bg], "button.") == [];
    assert WithoutPrefix([labelColor], "button.") == [];
    assert WithoutPrefix([group], "button.") == [group];
    DeletionsKeepOrder([bg], [labelColor], "button.");
    DeletionsKeepOrder([bg, labelColor], [group], "button.");
    assert [bg] + [labelColor] == [bg, labelColor];
    assert [bg, labelColor] + [group] == [bg, labelColor, group];
  }

  // ---------------------------------------------------------------------------------------------
  // updateAliases on one set

  /** `replaceReferences(value, oldName, newName)`; its source is not part of this model. */
  type Replacer = (string, string, string) -> string

  /** Every property of a flat object passed through `replaceReferences`. */
  function RewriteProps(m: Props, replace: Replacer, oldName: string, newName: string): Props {
    map k | k in m :: replace(m[k], oldName, newName)
  }

  /** A value with its references rewritten: a string directly, an object property by property,
      a list element by element and then property by property. */
  function RewriteValue(v: TokenValue, replace: Replacer, oldName: string, newName: string): (r: TokenValue)
    ensures v.Str? <==> r.Str?
    ensures v.Str? ==> r.s == replace(v.s, oldName, newName)
    ensures v.Obj? ==> r.Obj? && r.props.Keys == v.props.Keys
    ensures v.Obj? ==> forall k :: k in v.props ==> r.props[k] == replace(v.props[k], oldName, newName)
    ensures v.Arr? ==> r.Arr? && |r.items| == |v.items|
                       && forall i :: 0 <= i < |v.items| ==> r.items[i].Keys == v.items[i].Keys
    ensures v.Arr? ==> forall i, k :: 0 <= i < |v.items| && k in v.items[i] ==>
                         r.items[i][k] == replace(v.items[i][k], oldName, newName)
  {
    match v
    case Str(s) => Str(replace(s, oldName, newName))
    case Obj(m) => Obj(RewriteProps(m, replace, oldName, newName))
    case Arr(items) =>
      Arr(seq(|items|, i requires 0 <= i < |items| => RewriteProps(items[i], replace, oldName, newName)))
  }

  /** `{...token, value: rewritten}`. */
  function RewriteToken(t: Token, replace: Replacer, oldName: string, newName: string): Token {
    t.(value := RewriteValue(t.value, replace, oldName, newName))
  }

  /** `values.map(...)` in `updateAliases`. */
  function RewriteSet(ts: seq<Token>, replace: Replacer, oldName: string, newName: string): seq<Token> {
    seq(|ts|, i requires 0 <= i < |ts| => RewriteToken(ts[i], replace, oldName, newName))
  }

  /** The sweep keeps the count, the order, the names and the non-value fields of a set; every
      value is rewritten as `RewriteValue` says, so a string value becomes `replaceReferences` of
      the old one, and so does every property of an object value or of a list item. */
  lemma {:induction false} RewriteSetShape(ts: seq<Token>, replace: Replacer, oldName: string, newName: string)
    ensures var r := RewriteSet(ts, replace, oldName, newName);
      && |r| == |ts|
      && (forall i :: 0 <= i < |ts| ==> r[i].name == ts[i].name && r[i].fields == ts[i].fields)
      && (forall i :: 0 <= i < |ts| ==> r[i].value == RewriteValue(ts[i].value, replace, oldName, newName))
      && (forall i :: 0 <= i < |ts| && ts[i].value.Str? ==>
            r[i].value == Str(replace(ts[i].value.s, oldName, newName)))
      && (forall i, k :: 0 <= i < |ts| && ts[i].value.Obj? && k in ts[i].value.props ==>
            r[i].value.props[k] == replace(ts[i].value.props[k], oldName, newName))
      && (forall i, j, k ::
            (0 <= i < |ts| && ts[i].value.Arr? && 0 <= j < |ts[i].value.items| && k in ts[i].value.items[j]) ==>
            r[i].value.items[j][k] == replace(ts[i].value.items[j][k], oldName, newName))
  {
    forall i | 0 <= i < |ts| ensures RewriteSet(ts, replace, oldName, newName)[i].value == RewriteValue(ts[i].value, replace, oldName, newName) {
    }
  }

  /** When `replaceReferences` leaves every string alone, the sweep changes nothing. */
  lemma {:induction false} RewriteSetIdentity(ts: seq<Token>, replace: Replacer, oldName: string, newName: string)
    requires forall s :: replace(s, oldName, newName) == s
    ensures RewriteSet(ts, replace, oldName, newName) == ts
  {
    forall i | 0 <= i < |ts| ensures RewriteToken(ts[i], replace, oldName, newName) == ts[i] {
      var v := ts[i].value;
      match v
      case Str(s) =>
      case Obj(m) =>
        assert RewriteProps(m, replace, oldName, newName) == m;
      case Arr(items) =>
        forall j | 0 <= j < |items| ensures RewriteProps(items[j], replace, oldName, newName) == items[j] {
        }
        assert RewriteValue(v, replace, oldName, newName).items == items;
    }
  }

  // ---------------------------------------------------------------------------------------------
  // setTokensFromStyles

  /** An entry of `updatedTokens`: `{...token, oldValue}` or `{...token, oldDescription}`. */
  datatype Update =
    | ValueChanged(token: Token, oldValue: TokenValue)
    | DescriptionChanged(token: Token, oldDescription: Option<string>)

  /** The staging area `importedTokens`. */
  datatype Imported = Imported(newTokens: seq<Token>, updatedTokens: seq<Update>)

  /** What `setTokensFromStyles` decides for one received token. */
  datatype Verdict = New | Changed(update: Update) | Same

  /** The descriptions agree, an undefined new description counting as equal to an old `''`. */
  predicate SameDescription(prior: Token, t: Token) {
    Description(prior) == Description(t) || (Description(t).None? && Description(prior) == Some(""))
  }

  /** The decision for one received token against the active set. */
  function Judge(active: seq<Token>, t: Token): (v: Verdict)
    ensures v.Changed? ==> v.update.token == t
  {
    match Find(active, t.name)
    case None => New
    case Some(prior) =>
      if prior.value != t.value then Changed(ValueChanged(t, prior.value))
      else if SameDescription(prior, t) then Same
      else Changed(DescriptionChanged(t, Description(prior)))
  }

  /** The staging area after one more received token. */
  function Collect(acc: Imported, active: seq<Token>, t: Token): Imported {
    match Judge(active, t)
    case New => acc.(newTokens := acc.newTokens + [t])
    case Changed(u) => acc.(updatedTokens := acc.updatedTokens + [u])
    case Same => acc
  }

  /** The staging area after the received tokens `rs`, in order. */
  function Classify(active: seq<Token>, rs: seq<Token>): Imported {
    if rs == [] then Imported([], []) else Collect(Classify(active, rs[..|rs| - 1]), active, rs[|rs| - 1])
  }

  /** `Object.values(receivedStyles)` taken one after the other. */
  function Flatten(styles: seq<seq<Token>>): seq<Token> {
    if styles == [] then [] else Flatten(styles[..|styles| - 1]) + styles[|styles| - 1]
  }

  /** A received token lands in `newTokens` exactly when the active set has no token of that name. */
  lemma {:induction false} ClassifyNew(active: seq<Token>, rs: seq<Token>, t: Token)
    ensures t in Classify(active, rs).newTokens <==> t in rs && IndexOfName(active, t.name) < 0
  {
    if rs != [] {
      var init := rs[..|rs| - 1];
      ClassifyNew(active, init, t);
      assert rs == init + [rs[|rs| - 1]];
    }
  }

  /** `updatedTokens` holds exactly the updates decided for received tokens that exist with another
      value, or with the same value and another description. */
  lemma {:induction false} ClassifyUpdated(active: seq<Token>, rs: seq<Token>, u: Update)
    ensures u in Classify(active, rs).updatedTokens <==> exists t :: t in rs && Judge(active, t) == Changed(u)
  {
    if rs != [] {
      var init, last := rs[..|rs| - 1], rs[|rs| - 1];
      ClassifyUpdated(active, init, u);
      assert rs == init + [last];
      if u in Classify(active, rs).updatedTokens && u !in Classify(active, init).updatedTokens {
        assert Judge(active, last) == Changed(u);
      }
    }
  }

  /** A received token that exists with an equal value and an equal description (or an undefined
      description against an old `''`) is in neither list. */
  lemma {:induction false} ClassifyUnchanged(active: seq<Token>, rs: seq<Token>, t: Token)
    requires Judge(active, t) == Same
    ensures t !in Classify(active, rs).newTokens
    ensures forall u :: u in Classify(active, rs).updatedTokens ==> u.token != t
  {
    ClassifyNew(active, rs, t);
    forall u | u in Classify(active, rs).updatedTokens ensures u.token != t {
      ClassifyUpdated(active, rs, u);
    }
  }

  /** Classifying one more token extends the staging area by that token's verdict. */
  lemma {:induction false} ClassifyStep(active: seq<Token>, xs: seq<Token>, t: Token)
    ensures Classify(active, xs + [t]) == Collect(Classify(active, xs), active, t)
  {
    assert (xs + [t])[..|xs|] == xs;
  }

  /** One more group of received tokens extends the flattened sequence by that group. */
  lemma {:induction false} FlattenStep(styles: seq<seq<Token>>, i: nat)
    requires i < |styles|
    ensures Flatten(styles[..i + 1]) == Flatten(styles[..i]) + styles[i]
  {
    assert styles[..i + 1][..i] == styles[..i];
  }

  /** The body of the inner callback of `setTokensFromStyles`: look the token up in the active set
      and push it to `newTokens` or `updatedTokens`, or to neither. */
  method Push(active: seq<Token>, token: Token, newTokens: seq<Token>, updatedTokens: seq<Update>)
    returns (newTokens': seq<Token>, updatedTokens': seq<Update>)
    ensures Imported(newTokens', updatedTokens') == Collect(Imported(newTokens, updatedTokens), active, token)
  {
    newTokens', updatedTokens' := newTokens, updatedTokens;
    match Find(active, token.name) {
      case None =>
        newTokens' := newTokens + [token];
      case Some(prior) =>
        if prior.value != token.value {
          updatedTokens' := updatedTokens + [ValueChanged(token, prior.value)];
        } else if !SameDescription(prior, token) {
          updatedTokens' := updatedTokens + [DescriptionChanged(token, Description(prior))];
        }
    }
  }

  /** The inner `values.map(...)` of `setTokensFromStyles`: the tokens of one received group, in
      order, each pushed as its verdict says. */
  method ClassifyGroup(active: seq<Token>, ghost before: seq<Token>, values: seq<Token>, acc: Imported)
    returns (r: Imported)
    requires acc == Classify(active, before)
    ensures r == Classify(active, before + values)
  {
    var newTokens, updatedTokens := acc.newTokens, acc.updatedTokens;
    var j := 0;
    ghost var seen := before;
    while j < |values|
      invariant 0 <= j <= |values|
      invariant seen == before + values[..j]
      invariant Imported(newTokens, updatedTokens) == Classify(active, seen)
    {
      var token := values[j];
      assert values[..j + 1] == values[..j] + [token];
      ClassifyStep(active, seen, token);
      newTokens, updatedTokens := Push(active, token, newTokens, updatedTokens);
      seen := seen + [token];
      j := j + 1;
    }
    assert values[..j] == values;
    r := Imported(newTokens, updatedTokens);
  }

  /** The outer loop of `setTokensFromStyles` over `Object.values(receivedStyles)`: every received
      token, group by group, is checked against the active set. */
  method ClassifyStyles(active: seq<Token>, styles: seq<seq<Token>>) returns (r: Imported)
    ensures r == Classify(active, Flatten(styles))
  {
    r := Imported([], []);
    var i := 0;
    while i < |styles|
      invariant 0 <= i <= |styles|
      invariant r == Classify(active, Flatten(styles[..i]))
    {
      r := ClassifyGroup(active, Flatten(styles[..i]), styles[i], r);
      FlattenStep(styles, i);
      i := i + 1;
    }
    assert styles[..i] == styles;
  }
}
