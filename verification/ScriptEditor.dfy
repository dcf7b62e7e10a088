/** Editing the list of segments of a script by id: new ids are derived from an anchor, every other
segment keeps its own. */
module ScriptEditor {

  import opened Options
  import opened Decimals

  /** A segment; `assets` is `None` when its generated assets are missing or not an object. An element
  that is not an object at all has no id. */
  datatype Item = Item(id: string, assets: Option<int>, fields: Fields) | Junk(value: int)

  /** A field's value: an object with fields of its own, or anything else. */
  datatype Value = Plain(value: int) | Object(fields: Fields)

  type Fields = map<string, Value>

  const NO_ASSETS := 0

  datatype Outcome = Done | NotFound | TooFewParts | BadPath | Forbidden | MissingParent | NotAnObject

  function Ids(items: seq<Item>): set<string> {
    set i | 0 <= i < |items| && items[i].Item? :: items[i].id
  }

  ghost predicate Distinct(items: seq<Item>) {
    forall i, j :: 0 <= i < j < |items| && items[i].Item? && items[j].Item? ==> items[i].id != items[j].id
  }

  /** A stem, or a stem with a number after an underscore. */
  ghost predicate WellFormed(id: string) {
    '_' !in id || exists stem: string, k: nat :: k >= 1 && '_' !in stem && id == Suffixed(stem, k)
  }

  ghost predicate Formed(items: seq<Item>) {
    forall i :: 0 <= i < |items| && items[i].Item? ==> WellFormed(items[i].id)
  }

  // ---------------------------------------------------------------- new ids

  /** The part of the id before the first underscore. */
  function Stem(id: string): (r: string)
    ensures '_' !in r
  {
    if id == "" || id[0] == '_' then "" else [id[0]] + Stem(id[1..])
  }

  function Suffixed(stem: string, k: nat): string {
    stem + "_" + Decimal(k)
  }

  lemma SuffixedInjective(stem: string, j: nat, k: nat)
    requires Suffixed(stem, j) == Suffixed(stem, k)
    ensures j == k
  {
    assert Suffixed(stem, j)[|stem| + 1..] == Decimal(j) && Suffixed(stem, k)[|stem| + 1..] == Decimal(k);
    DecimalInjective(j, k);
  }

  /** The ids tried so far are as many different members of `taken`. */
  lemma {:induction false} TriedAreTaken(stem: string, taken: set<string>, k: nat)
    requires k >= 1 && forall j :: 1 <= j < k ==> Suffixed(stem, j) in taken
    ensures k - 1 <= |taken|
  {
    if k > 1 {
      var rest := taken - {Suffixed(stem, k - 1)};
      forall j | 1 <= j < k - 1 ensures Suffixed(stem, j) in rest {
        if Suffixed(stem, j) == Suffixed(stem, k - 1) {
          SuffixedInjective(stem, j, k - 1);
        }
      }
      TriedAreTaken(stem, rest, k - 1);
    }
  }

  /** The first suffix of the base's stem that is not taken. */
  ghost predicate Fresh(base: string, taken: set<string>, id: string) {
    exists k: nat :: k >= 1 && id == Suffixed(Stem(base), k) && id !in taken
                     && forall j :: 1 <= j < k ==> Suffixed(Stem(base), j) in taken
  }

  /** Such an id is the stem, an underscore and a number. */
  lemma FreshShape(base: string, taken: set<string>, id: string)
    requires Fresh(base, taken, id)
    ensures var n := |Stem(base)|;
            && |id| > n + 1 && id[..n] == Stem(base) && id[n] == '_'
            && forall i :: n < i < |id| ==> '0' <= id[i] <= '9'
  {
  }

  lemma FreshIsFormed(base: string, taken: set<string>, id: string)
    requires Fresh(base, taken, id)
    ensures WellFormed(id)
  {
  }

  /** `_next_suffixed_id`: the search ends, after at most one more try than there are ids taken. */
  method NextSuffixedId(base: string, taken: set<string>) returns (id: string, ghost k: nat)
    ensures 1 <= k <= |taken| + 1 && id == Suffixed(Stem(base), k) && id !in taken
    ensures forall j :: 1 <= j < k ==> Suffixed(Stem(base), j) in taken
    ensures Fresh(base, taken, id)
  {
    var stem := Stem(base);
    var n := 1;
    TriedAreTaken(stem, taken, n);
    while Suffixed(stem, n) in taken
      invariant 1 <= n <= |taken| + 1
      invariant forall j :: 1 <= j < n ==> Suffixed(stem, j) in taken
      decreases |taken| + 1 - n
    {
      TriedAreTaken(stem, taken, n + 1);
      n := n + 1;
    }
    k := n;
    id := Suffixed(stem, n);
  }

  // ---------------------------------------------------------------- nested fields

  /** The parts of a dotted path. */
  function Parts(path: string): (r: seq<string>)
    ensures |r| >= 1
  {
    if path == "" then [""]
    else
      var rest := Parts(path[1..]);
      if path[0] == '.' then [""] + rest else [[path[0]] + rest[0]] + rest[1..]
  }

  function Dotted(parts: seq<string>): string
    requires |parts| >= 1
  {
    if |parts| == 1 then parts[0] else parts[0] + "." + Dotted(parts[1..])
  }

  /** Splitting at the dots loses nothing and leaves no dot. */
  lemma {:induction false} PartsRejoin(path: string)
    ensures Dotted(Parts(path)) == path
    ensures forall k :: 0 <= k < |Parts(path)| ==> '.' !in Parts(path)[k]
  {
    if path != "" {
      PartsRejoin(path[1..]);
      var rest := Parts(path[1..]);
      if path[0] != '.' {
        var parts := [[path[0]] + rest[0]] + rest[1..];
        assert parts[1..] == rest[1..];
      }
    }
  }

  /** What stands at a path, if anything does. */
  function Get(o: Fields, parts: seq<string>): Option<Value>
    decreases |parts|
  {
    if parts == [] then Some(Object(o))
    else if parts[0] !in o then None
    else if |parts| == 1 then Some(o[parts[0]])
    else if o[parts[0]].Object? then Get(o[parts[0]].fields, parts[1..])
    else None
  }

  predicate IsObject(v: Option<Value>) {
    v.Some? && v.value.Object?
  }

  /** The objects on the way to the last part are all there. */
  predicate HasParents(o: Fields, parts: seq<string>)
    requires |parts| >= 1
    decreases |parts|
  {
    |parts| == 1 || (parts[0] in o && o[parts[0]].Object? && HasParents(o[parts[0]].fields, parts[1..]))
  }

  /** The object with `value` at the path. */
  function Put(o: Fields, parts: seq<string>, value: Value): Fields
    requires |parts| >= 1 && HasParents(o, parts)
    decreases |parts|
  {
    o[parts[0] := if |parts| == 1 then value else Object(Put(o[parts[0]].fields, parts[1..], value))]
  }

  function Patched(item: Item, parts: seq<string>, value: Value): Item
    requires item.Item? && |parts| >= 1
  {
    if HasParents(item.fields, parts) then item.(fields := Put(item.fields, parts, value)) else item
  }

  /** How the walk down to the last part ends: at the first parent that is missing or no object, if
  there is one. */
  ghost predicate WalkEnds(o: Fields, parts: seq<string>, r: Outcome)
    requires |parts| >= 1
  {
    && (r.Done? <==> forall k :: 1 <= k < |parts| ==> IsObject(Get(o, parts[..k])))
    && (r.MissingParent? <==>
          exists k :: 0 <= k < |parts| - 1 && IsObject(Get(o, parts[..k])) && Get(o, parts[..k + 1]).None?)
    && (r.NotAnObject? <==> exists k :: 1 <= k < |parts| && Get(o, parts[..k]).Some? && !IsObject(Get(o, parts[..k])))
    && (r.Done? <==> HasParents(o, parts))
  }

  /** Going one part further. */
  lemma {:induction false} GetNext(o: Fields, parts: seq<string>, part: string)
    ensures Get(o, parts + [part]) == match Get(o, parts)
                                      case Some(Object(f)) => if part in f then Some(f[part]) else None
                                      case _ => None
    decreases |parts|
  {
    var all := parts + [part];
    if |parts| >= 1 {
      assert all[1..] == parts[1..] + [part];
      if parts[0] in o && o[parts[0]].Object? {
        GetNext(o[parts[0]].fields, parts[1..], part);
      }
    }
  }

  /** Nothing stands below a place where no object stands. */
  lemma {:induction false} NothingBelow(o: Fields, parts: seq<string>, j: nat, k: nat)
    requires j < k <= |parts| && !IsObject(Get(o, parts[..j]))
    ensures Get(o, parts[..k]).None?
    decreases k
  {
    assert parts[..k] == parts[..k - 1] + [parts[k - 1]];
    GetNext(o, parts[..k - 1], parts[k - 1]);
    if j < k - 1 {
      NothingBelow(o, parts, j, k - 1);
    }
  }

  lemma {:induction false} ParentsAreObjects(o: Fields, parts: seq<string>)
    requires |parts| >= 1
    ensures HasParents(o, parts) <==> forall k :: 1 <= k < |parts| ==> IsObject(Get(o, parts[..k]))
    decreases |parts|
  {
    if |parts| > 1 {
      assert parts[..1][0] == parts[0];
      if IsObject(Get(o, parts[..1])) {
        var f := o[parts[0]].fields;
        ParentsAreObjects(f, parts[1..]);
        forall k | 2 <= k < |parts| ensures Get(o, parts[..k]) == Get(f, parts[1..][..k - 1]) {
          assert parts[..k][1..] == parts[1..][..k - 1] && parts[..k][0] == parts[0];
        }
        forall k | 1 <= k < |parts[1..]|
            ensures IsObject(Get(f, parts[1..][..k])) <==> IsObject(Get(o, parts[..k + 1])) {
          assert parts[..k + 1][1..] == parts[1..][..k] && parts[..k + 1][0] == parts[0];
        }
      }
    }
  }

  /** The value is at the path afterwards, with what it holds below it. */
  lemma {:induction false} PutThenGet(o: Fields, parts: seq<string>, value: Value, below: seq<string>)
    requires |parts| >= 1 && HasParents(o, parts)
    ensures Get(Put(o, parts, value), parts + below) ==
            if below == [] then Some(value) else if value.Object? then Get(value.fields, below) else None
    decreases |parts|
  {
    var all := parts + below;
    assert all[0] == parts[0] && all[1..] == parts[1..] + below;
    if |parts| > 1 {
      PutThenGet(o[parts[0]].fields, parts[1..], value, below);
    } else {
      assert all[1..] == below;
    }
  }

  /** Whatever is neither above nor below the path is as it was. */
  lemma {:induction false} PutElsewhere(o: Fields, parts: seq<string>, value: Value, other: seq<string>)
    requires |parts| >= 1 && HasParents(o, parts)
    requires !(parts <= other) && !(other <= parts)
    ensures Get(Put(o, parts, value), other) == Get(o, other)
    decreases |parts|
  {
    if parts[0] == other[0] {
      assert parts == [parts[0]] + parts[1..] && other == [other[0]] + other[1..];
      assert |parts| > 1 && |other| > 1;
      PutElsewhere(o[parts[0]].fields, parts[1..], value, other[1..]);
    }
  }

  /** What is above the path is still an object. */
  lemma {:induction false} PutAbove(o: Fields, parts: seq<string>, value: Value, k: nat)
    requires 1 <= k < |parts| && HasParents(o, parts)
    ensures IsObject(Get(Put(o, parts, value), parts[..k]))
    decreases |parts|
  {
    var above := parts[..k];
    assert above[0] == parts[0];
    if k > 1 {
      assert above[1..] == parts[1..][..k - 1];
      PutAbove(o[parts[0]].fields, parts[1..], value, k - 1);
    }
  }

  /** `_set_nested`: the checks on the path, the walk down to the last part, and the assignment. */
  method SetNested(o: Fields, parts: seq<string>, value: Value) returns (r: Outcome, o': Fields)
    requires |parts| >= 1
    ensures r.BadPath? <==> "" in parts
    ensures r.Forbidden? <==> "" !in parts && parts[0] in RESERVED
    ensures r.BadPath? || r.Forbidden? || WalkEnds(o, parts, r)
    ensures !r.NotFound? && !r.TooFewParts?
    ensures o' == if r.Done? then Put(o, parts, value) else o
    ensures forall name :: name in {"generated_assets", "segment_id", "scene_id", "unit_id", "shot_id"} ==>
              Get(o', [name]) == Get(o, [name])
  {
    if "" in parts {
      return BadPath, o;
    }
    if parts[0] in RESERVED {
      return Forbidden, o;
    }
    var cur, i := o, 0;
    while i < |parts| - 1
      invariant 0 <= i < |parts|
      invariant forall k :: 0 <= k <= i ==> IsObject(Get(o, parts[..k]))
      invariant Get(o, parts[..i]) == Some(Object(cur))
    {
      assert parts[..i + 1] == parts[..i] + [parts[i]];
      GetNext(o, parts[..i], parts[i]);
      if parts[i] !in cur || !cur[parts[i]].Object? {
        StopsAt(o, parts, i + 1);
        return if parts[i] !in cur then MissingParent else NotAnObject, o;
      }
      cur, i := cur[parts[i]].fields, i + 1;
    }
    ParentsAreObjects(o, parts);
    return Done, Put(o, parts, value);
  }

  /** The first parent that is no object decides how the walk ends. */
  lemma StopsAt(o: Fields, parts: seq<string>, k: nat)
    requires 1 <= k < |parts| && !IsObject(Get(o, parts[..k]))
    requires forall j :: 0 <= j < k ==> IsObject(Get(o, parts[..j]))
    ensures WalkEnds(o, parts, if Get(o, parts[..k]).None? then MissingParent else NotAnObject)
  {
    hide Get, HasParents;
    ParentsAreObjects(o, parts);
    forall j | k < j <= |parts| ensures Get(o, parts[..j]).None? {
      NothingBelow(o, parts, k, j);
    }
    if Get(o, parts[..k]).None? {
      assert IsObject(Get(o, parts[..k - 1])) && Get(o, parts[..(k - 1) + 1]).None?;
    }
  }

  // ---------------------------------------------------------------- edits in place

  /** The parts of a split: the first continues the anchor, assets included; the others start afresh
  under new ids. */
  ghost predicate SplitInto(anchor: Item, taken: set<string>, parts: seq<Fields>, items: seq<Item>)
    requires anchor.Item?
  {
    && |items| == |parts| >= 1
    && (forall i :: 0 <= i < |items| ==> items[i].Item? && items[i].fields == parts[i])
    && items[0].id == anchor.id
    && items[0].assets == Some(if anchor.assets.Some? then anchor.assets.value else NO_ASSETS)
    && (forall i :: 1 <= i < |items| ==>
          items[i].assets == Some(NO_ASSETS) && Fresh(anchor.id, taken + Ids(items[1..i]), items[i].id))
  }

  ghost predicate First(items: seq<Item>, id: string, i: nat) {
    && i < |items| && items[i].Item? && items[i].id == id
    && forall j :: 0 <= j < i && items[j].Item? ==> items[j].id != id
  }

  class Script {
    var items: seq<Item>

    constructor (items: seq<Item>)
      ensures this.items == items
    {
      this.items := items;
    }

    method FindIndex(id: string) returns (r: Option<nat>)
      ensures r.None? <==> id !in Ids(items)
      ensures r.Some? ==> r.value < |items| && items[r.value].Item? && items[r.value].id == id
      ensures r.Some? ==> forall i :: 0 <= i < r.value && items[i].Item? ==> items[i].id != id
    {
      for i := 0 to |items|
        invariant forall j :: 0 <= j < i && items[j].Item? ==> items[j].id != id
      {
        if items[i].Item? && items[i].id == id {
          return Some(i);
        }
      }
      return None;
    }

    /** `patch_field`: sets the field that a dotted path leads to. The last part may be new; every part
    before it has to name an object, and the first may be neither an id nor the generated assets. */
    method PatchField(id: string, path: string, value: Value) returns (r: Outcome)
      modifies this
      ensures r.NotFound? <==> id !in Ids(old(items))
      ensures r.BadPath? <==> id in Ids(old(items)) && "" in Parts(path)
      ensures r.Forbidden? <==> id in Ids(old(items)) && "" !in Parts(path) && Parts(path)[0] in RESERVED
      ensures !r.TooFewParts? && (!r.Done? ==> items == old(items))
      ensures !r.NotFound? && !r.BadPath? && !r.Forbidden? ==>
                exists i: nat :: First(old(items), id, i) && WalkEnds(old(items)[i].fields, Parts(path), r)
                            && (r.Done? ==> items == old(items)[i := Patched(old(items)[i], Parts(path), value)])
      ensures Distinct(old(items)) ==> Distinct(items)
      ensures Formed(old(items)) ==> Formed(items)
    {
      var k := FindIndex(id);
      if k.None? {
        return NotFound;
      }
      var i := k.value;
      var fields;
      assert First(items, id, i);
      r, fields := SetNested(items[i].fields, Parts(path), value);
      items := items[i := Item(items[i].id, items[i].assets, fields)];
    }

    /** `insert_segment`: right after the anchor, under a new id and without assets. */
    method InsertSegment(afterId: string, fields: Fields) returns (r: Outcome)
      modifies this
      ensures r.Done? <==> afterId in Ids(old(items))
      ensures !r.Done? ==> items == old(items)
      ensures r.Done? ==>
                exists i: nat, id :: First(old(items), afterId, i) && Fresh(afterId, Ids(old(items)), id)
                  && items == old(items)[..i + 1] + [Item(id, Some(NO_ASSETS), fields)] + old(items)[i + 1..]
      ensures Distinct(old(items)) ==> Distinct(items)
      ensures Formed(old(items)) ==> Formed(items)
    {
      var k := FindIndex(afterId);
      if k.None? {
        return NotFound;
      }
      var id, _ := NextSuffixedId(afterId, Ids(items));
      var i := k.value;
      assert First(items, afterId, i);
      FreshIsFormed(afterId, Ids(items), id);
      InsertKeepsIds(items, i, Item(id, Some(NO_ASSETS), fields));
      hide WellFormed, Distinct, Formed, First, Fresh;
      items := items[..i + 1] + [Item(id, Some(NO_ASSETS), fields)] + items[i + 1..];
      return Done;
    }

    /** `remove_segment`. */
    method RemoveSegment(id: string) returns (r: Outcome)
      modifies this
      ensures r.Done? <==> id in Ids(old(items))
      ensures !r.Done? ==> items == old(items)
      ensures r.Done? ==> exists i: nat :: First(old(items), id, i) && items == old(items)[..i] + old(items)[i + 1..]
      ensures Distinct(old(items)) ==> Distinct(items) && id !in Ids(items)
      ensures Formed(old(items)) ==> Formed(items)
    {
      var k := FindIndex(id);
      if k.None? {
        return NotFound;
      }
      assert First(items, id, k.value);
      items := items[..k.value] + items[k.value + 1..];
      return Done;
    }

    /** `split_segment`: the parts take the anchor's place; everything before and after stays. */
    method SplitSegment(id: string, parts: seq<Fields>) returns (r: Outcome)
      modifies this
      ensures r.Done? <==> |parts| >= 2 && id in Ids(old(items))
      ensures !r.Done? ==> items == old(items)
      ensures r.Done? ==>
                exists i: nat, made :: First(old(items), id, i)
                  && SplitInto(old(items)[i], Ids(old(items)), parts, made)
                  && items == old(items)[..i] + made + old(items)[i + 1..]
      ensures Distinct(old(items)) ==> Distinct(items)
      ensures Formed(old(items)) ==> Formed(items)
    {
      if |parts| < 2 {
        return TooFewParts;
      }
      var k := FindIndex(id);
      if k.None? {
        return NotFound;
      }
      var i := k.value;
      assert First(items, id, i);
      var made := MakeParts(items[i], Ids(items), parts);
      SplitKeepsIds(items, i, parts, made);
      items := items[..i] + made + items[i + 1..];
      return Done;
    }
  }

  method MakeParts(anchor: Item, taken: set<string>, parts: seq<Fields>) returns (made: seq<Item>)
    requires anchor.Item? && |parts| >= 2
    ensures SplitInto(anchor, taken, parts, made)
  {
    hide SplitInto, Ids, Fresh, WellFormed;
    var all := taken;
    made := [Item(anchor.id, Some(if anchor.assets.Some? then anchor.assets.value else NO_ASSETS), parts[0])];
    FirstPart(anchor, taken, parts, made);
    while |made| < |parts|
      invariant 1 <= |made| <= |parts|
      invariant SplitInto(anchor, taken, parts[..|made|], made)
      invariant all == taken + Ids(made[1..])
      decreases |parts| - |made|
    {
      var id, k := NextSuffixedId(anchor.id, all);
      OneMorePart(anchor, taken, parts, made, id);
      all := all + {id};
      made := made + [Item(id, Some(NO_ASSETS), parts[|made|])];
    }
    assert parts[..|made|] == parts;
  }

  lemma FirstPart(anchor: Item, taken: set<string>, parts: seq<Fields>, made: seq<Item>)
    requires anchor.Item? && |parts| >= 1
    requires made == [Item(anchor.id, Some(if anchor.assets.Some? then anchor.assets.value else NO_ASSETS), parts[0])]
    ensures SplitInto(anchor, taken, parts[..1], made) && Ids(made[1..]) == {}
  {
  }

  lemma IdsOneMore(items: seq<Item>, item: Item)
    requires item.Item?
    ensures Ids(items + [item]) == Ids(items) + {item.id}
  {
    var all := items + [item];
    assert all[|items|] == item && forall i :: 0 <= i < |items| ==> all[i] == items[i];
  }

  lemma OneMorePart(anchor: Item, taken: set<string>, parts: seq<Fields>, made: seq<Item>, id: string)
    requires anchor.Item? && 1 <= |made| < |parts| && SplitInto(anchor, taken, parts[..|made|], made)
    requires Fresh(anchor.id, taken + Ids(made[1..]), id)
    ensures var more := made + [Item(id, Some(NO_ASSETS), parts[|made|])];
            SplitInto(anchor, taken, parts[..|more|], more) && Ids(more[1..]) == Ids(made[1..]) + {id}
  {
    hide Fresh, Ids;
    var item := Item(id, Some(NO_ASSETS), parts[|made|]);
    var more := made + [item];
    assert more[1..] == made[1..] + [item];
    IdsOneMore(made[1..], item);
    assert forall i :: 1 <= i <= |made| ==> more[1..i] == made[1..i];
  }

  lemma InsertKeepsIds(items: seq<Item>, i: nat, item: Item)
    requires i < |items| && item.Item? && item.id !in Ids(items) && WellFormed(item.id)
    ensures Distinct(items) ==> Distinct(items[..i + 1] + [item] + items[i + 1..])
    ensures Formed(items) ==> Formed(items[..i + 1] + [item] + items[i + 1..])
  {
    hide WellFormed;
    var after := items[..i + 1] + [item] + items[i + 1..];
    assert forall a :: 0 <= a < |after| ==>
        after[a] == if a <= i then items[a] else if a == i + 1 then item else items[a - 1];
  }

  lemma SplitKeepsIds(items: seq<Item>, i: nat, parts: seq<Fields>, made: seq<Item>)
    requires i < |items| && items[i].Item? && SplitInto(items[i], Ids(items), parts, made)
    ensures Distinct(items) ==> Distinct(items[..i] + made + items[i + 1..])
    ensures Formed(items) ==> Formed(items[..i] + made + items[i + 1..])
  {
    hide WellFormed, SplitInto;
    PartsAreNew(items[i], Ids(items), parts, made);
    var after := items[..i] + made + items[i + 1..];
    if Distinct(items) {
      forall a, b | 0 <= a < b < |after| && after[a].Item? && after[b].Item? ensures after[a].id != after[b].id {
        Origin(items, i, made, a);
        Origin(items, i, made, b);
      }
    }
    if Formed(items) {
      forall a | 0 <= a < |after| && after[a].Item? ensures WellFormed(after[a].id) {
        Origin(items, i, made, a);
      }
    }
  }

  /** The new ids are well formed, different and not taken. */
  lemma PartsAreNew(anchor: Item, taken: set<string>, parts: seq<Fields>, made: seq<Item>)
    requires anchor.Item? && SplitInto(anchor, taken, parts, made)
    ensures |made| >= 1 && (forall i :: 0 <= i < |made| ==> made[i].Item?) && made[0].id == anchor.id
    ensures forall i :: 1 <= i < |made| ==> made[i].id !in taken && WellFormed(made[i].id)
    ensures forall i, j :: 1 <= i < j < |made| ==> made[i].id != made[j].id
  {
    hide WellFormed;
    forall i | 1 <= i < |made| ensures made[i].id !in taken + Ids(made[1..i]) && WellFormed(made[i].id) {
      FreshIsFormed(anchor.id, taken + Ids(made[1..i]), made[i].id);
    }
    forall i, j | 1 <= i < j < |made| ensures made[i].id != made[j].id {
      assert made[1..j][i - 1] == made[i];
      assert made[i].id in Ids(made[1..j]);
    }
  }

  /** Where an element comes from when `made` replaces element `i`. */
  lemma Origin(items: seq<Item>, i: nat, made: seq<Item>, a: nat)
    requires i < |items| && a < |items| - 1 + |made|
    ensures var after := items[..i] + made + items[i + 1..];
            after[a] == if a < i then items[a] else if a < i + |made| then made[a - i] else items[a - |made| + 1]
  {
  }

  const RESERVED := {"generated_assets", "segment_id", "scene_id", "unit_id", "shot_id"}
}
