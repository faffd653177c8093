/** The shadow-layer editing of `BoxShadowInput`: adding and removing layers, changing one field of
    a layer, and moving a layer by drag and drop. */
module BoxShadow {

  /** One shadow layer (`ShadowTokenSingleValue`): a flat object of string fields `x`, `y`,
      `blur`, `spread`, `color` and `type`. */
  type Shadow = map<string, string>

  /** A shadow value: a single layer or an array of layers. */
  datatype ShadowValue = Single(shadow: Shadow) | Layers(layers: seq<Shadow>)

  /** `newToken`, the layer `addShadow` appends. */
  const NewLayer: Shadow :=
    map["x" := "0", "y" := "0", "blur" := "0", "spread" := "0", "color" := "#000000", "type" := "dropShadow"]

  /** The default layer is a black drop shadow with every offset, blur and spread at zero. */
  lemma {:induction false} NewLayerFields()
    ensures NewLayer.Keys == {"x", "y", "blur", "spread", "color", "type"}
    ensures NewLayer["x"] == NewLayer["y"] == NewLayer["blur"] == NewLayer["spread"] == "0"
    ensures NewLayer["color"] == "#000000" && NewLayer["type"] == "dropShadow"
  {
  }

  /** `addShadow()`: `[...value, newToken]`, or `[value, newToken]` for a single layer. */
  function AddShadow(v: ShadowValue): ShadowValue {
    match v
    case Layers(ls) => Layers(ls + [NewLayer])
    case Single(s) => Layers([s, NewLayer])
  }

  /** `value.filter((_, i) => i !== index)`. */
  function WithoutIndex(ls: seq<Shadow>, index: int): seq<Shadow> {
    if ls == [] then []
    else WithoutIndex(ls[..|ls| - 1], index) + (if |ls| - 1 != index then [ls[|ls| - 1]] else [])
  }

  /** `removeShadow(index)`: nothing happens to a single layer. */
  function RemoveShadow(v: ShadowValue, index: int): ShadowValue {
    match v
    case Layers(ls) => Layers(WithoutIndex(ls, index))
    case Single(_) => v
  }

  /** Adding keeps every layer in place and puts the default layer last. */
  lemma {:induction false} AddShadowShape(v: ShadowValue)
    ensures var r := AddShadow(v);
      && r.Layers?
      && (v.Layers? ==> |r.layers| == |v.layers| + 1 && r.layers[..|v.layers|] == v.layers)
      && (v.Single? ==> r.layers == [v.shadow, NewLayer])
      && r.layers[|r.layers| - 1] == NewLayer
  {
    if v.Layers? {
      assert AddShadow(v).layers[..|v.layers|] == v.layers;
    }
  }

  /** The filter drops exactly the element at `index`, if there is one, and keeps the rest in order. */
  lemma {:induction false} WithoutIndexDropsOne(ls: seq<Shadow>, index: int)
    ensures 0 <= index < |ls| ==> WithoutIndex(ls, index) == ls[..index] + ls[index + 1..]
    ensures !(0 <= index < |ls|) ==> WithoutIndex(ls, index) == ls
  {
    if ls != [] {
      var init := ls[..|ls| - 1];
      WithoutIndexDropsOne(init, index);
      if 0 <= index < |init| {
        assert ls[..index] == init[..index];
        assert ls[index + 1..] == init[index + 1..] + [ls[|ls| - 1]];
      } else if index == |init| {
        assert ls[..index] == init;
      } else {
        assert ls == init + [ls[|ls| - 1]];
      }
    }
  }

  /** Removing the layer just added gives back the layers as they were. */
  lemma {:induction false} RemoveUndoesAdd(ls: seq<Shadow>)
    ensures RemoveShadow(AddShadow(Layers(ls)), |ls|) == Layers(ls)
  {
    WithoutIndexDropsOne(ls + [NewLayer], |ls|);
    assert (ls + [NewLayer])[..|ls|] == ls;
  }

  /** `{...shadow, [name]: value}`: one field set, every other kept. This is `onChange` on a single
      layer, which hands the result to `setValue`. */
  function WithField(s: Shadow, name: string, value: string): (r: Shadow)
    ensures r.Keys == s.Keys + {name} && r[name] == value
    ensures forall k :: k in s && k != name ==> r[k] == s[k]
  {
    s[name := value]
  }

  // ---------------------------------------------------------------------------------------------
  // Array.prototype.splice

  /** The position `splice` starts at: a negative start counts from the end, and the result is
      clamped to the array. */
  function SpliceStart(start: int, len: nat): (a: nat)
    ensures a <= len
  {
    if start < 0 then (if len + start < 0 then 0 else len + start)
    else if start > len then len
    else start
  }

  /** The array after `splice(start, deleteCount, ...items)`. */
  function Spliced<T>(s: seq<T>, start: int, deleteCount: nat, items: seq<T>): seq<T> {
    var a := SpliceStart(start, |s|);
    var d := if deleteCount <= |s| - a then deleteCount else |s| - a;
    s[..a] + items + s[a + d..]
  }

  /** `splice(i, 1, x)` inside the array replaces the element at `i`. */
  lemma {:induction false} SpliceReplaces<T>(s: seq<T>, i: nat, x: T)
    requires i < |s|
    ensures Spliced(s, i, 1, [x]) == s[i := x]
  {
  }

  /** `splice(i, 1)` inside the array removes the element at `i`. */
  lemma {:induction false} SpliceRemoves<T>(s: seq<T>, i: nat)
    requires i < |s|
    ensures Spliced(s, i, 1, []) == s[..i] + s[i + 1..]
  {
    assert s[..i] + [] == s[..i];
  }

  /** `splice(i, 0, x)` inserts `x` so that it lands at index `min(i, |s|)`. */
  lemma {:induction false} SpliceInserts<T>(s: seq<T>, i: nat, x: T)
    ensures var r := Spliced(s, i, 0, [x]);
      var at := if i <= |s| then i else |s|;
      |r| == |s| + 1 && r[at] == x && r[..at] == s[..at] && r[at + 1..] == s[at..]
  {
  }

  // ---------------------------------------------------------------------------------------------
  // onMoveDebounce

  /** The layers after `onMoveDebounce(dragIndex, hoverIndex)`: the dragged layer is taken out and
      put back in before the layer now at `hoverIndex`. */
  function Moved<T>(s: seq<T>, dragIndex: nat, hoverIndex: int): seq<T>
    requires dragIndex < |s|
  {
    Spliced(Spliced(s, dragIndex, 1, []), hoverIndex, 0, [s[dragIndex]])
  }

  /** Moving a layer keeps the same layers, each as often as before. */
  lemma {:induction false} MovedIsPermutation<T>(s: seq<T>, dragIndex: nat, hoverIndex: int)
    requires dragIndex < |s|
    ensures |Moved(s, dragIndex, hoverIndex)| == |s|
    ensures multiset(Moved(s, dragIndex, hoverIndex)) == multiset(s)
  {
    var rest := Spliced(s, dragIndex, 1, []);
    SpliceRemoves(s, dragIndex);
    assert s == s[..dragIndex] + [s[dragIndex]] + s[dragIndex + 1..];
    var a := SpliceStart(hoverIndex, |rest|);
    var x := s[dragIndex];
    assert Moved(s, dragIndex, hoverIndex) == rest[..a] + [x] + rest[a..];
    assert rest == rest[..a] + rest[a..];
    calc {
      multiset(Moved(s, dragIndex, hoverIndex));
      multiset(rest[..a]) + multiset([x]) + multiset(rest[a..]);
      multiset(rest) + multiset([x]);
      multiset(s[..dragIndex]) + multiset(s[dragIndex + 1..]) + multiset([x]);
      multiset(s);
    }
  }

  /** Within range, the dragged layer lands at `hoverIndex`, and taking it out again leaves the
      other layers in their original order. */
  lemma {:induction false} MovedPosition<T>(s: seq<T>, dragIndex: nat, hoverIndex: nat)
    requires dragIndex < |s| && hoverIndex < |s|
    ensures var r := Moved(s, dragIndex, hoverIndex);
      r[hoverIndex] == s[dragIndex] && r[..hoverIndex] + r[hoverIndex + 1..] == s[..dragIndex] + s[dragIndex + 1..]
  {
    var rest := Spliced(s, dragIndex, 1, []);
    SpliceRemoves(s, dragIndex);
    SpliceInserts(rest, hoverIndex, s[dragIndex]);
    var r := Moved(s, dragIndex, hoverIndex);
    assert rest == rest[..hoverIndex] + rest[hoverIndex..];
  }

  /** Dragging the layer back where it came from restores the order. */
  lemma {:induction false} MoveBack<T>(s: seq<T>, dragIndex: nat, hoverIndex: nat)
    requires dragIndex < |s| && hoverIndex < |s|
    ensures Moved(s, dragIndex, hoverIndex)[hoverIndex] == s[dragIndex]
    ensures Moved(Moved(s, dragIndex, hoverIndex), hoverIndex, dragIndex) == s
  {
    var r := Moved(s, dragIndex, hoverIndex);
    MovedPosition(s, dragIndex, hoverIndex);
    var rest := r[..hoverIndex] + r[hoverIndex + 1..];
    SpliceRemoves(r, hoverIndex);
    SpliceInserts(rest, dragIndex, s[dragIndex]);
    var back := Moved(r, hoverIndex, dragIndex);
    assert |back| == |s|;
    forall i | 0 <= i < |s| ensures back[i] == s[i] {
      if i < dragIndex {
        assert back[i] == back[..dragIndex][i];
      } else if i > dragIndex {
        assert back[i] == back[dragIndex + 1..][i - dragIndex - 1];
      }
    }
  }

  /** The layer array that `SingleShadowInput` receives as `value` and changes in place. */
  class ShadowLayers {
    var layers: seq<Shadow>

    constructor (layers: seq<Shadow>)
      ensures this.layers == layers
    {
      this.layers := layers;
    }

    /** `values.splice(start, deleteCount, ...items)` on the shared array. */
    method Splice(start: int, deleteCount: nat, items: seq<Shadow>)
      modifies this
      ensures layers == Spliced(old(layers), start, deleteCount, items)
    {
      var a := SpliceStart(start, |layers|);
      var d := if deleteCount <= |layers| - a then deleteCount else |layers| - a;
      layers := layers[..a] + items + layers[a + d..];
    }

    /** `onChange` on an array value: the layer at `index` replaced by a copy with one field set.
        Past the end, `value[index]` is `undefined`, whose spread adds nothing, and `splice`
        appends the one-field layer. */
    method OnChange(index: nat, name: string, value: string)
      modifies this
      ensures index < |old(layers)| ==> layers == old(layers)[index := WithField(old(layers)[index], name, value)]
      ensures index >= |old(layers)| ==> layers == old(layers) + [map[name := value]]
    {
      var newShadow := if index < |layers| then WithField(layers[index], name, value) else map[name := value];
      if index < |layers| {
        SpliceReplaces(layers, index, newShadow);
      } else {
        assert layers[|layers|..] == [];
      }
      Splice(index, 1, [newShadow]);
    }

    /** `onMoveDebounce(dragIndex, hoverIndex)`: the two splices. */
    method OnMove(dragIndex: nat, hoverIndex: int)
      requires dragIndex < |layers|
      modifies this
      ensures layers == Moved(old(layers), dragIndex, hoverIndex)
      ensures multiset(layers) == multiset(old(layers))
    {
      MovedIsPermutation(layers, dragIndex, hoverIndex);
      var dragItem := layers[dragIndex];
      Splice(dragIndex, 1, []);
      Splice(hoverIndex, 0, [dragItem]);
    }
  }
}
