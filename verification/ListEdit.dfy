/** Saving a list that was read a while ago: the page's change becomes what it
    added and removed, and is applied to the list there is now
    (web/src/listEdit.ts:17-71). The key that says which entries are the same
    is a parameter. */
module ListEdit {
  import opened Text

  datatype Json = Plain(text: string) | List(items: seq<Json>) | Obj(fields: seq<Field>)

  datatype Field = Field(name: string, value: Json)

  type KeyOf = Json -> string

  function Keys(key: KeyOf, items: seq<Json>): (r: set<string>)
    ensures forall k :: k in r <==> exists i :: 0 <= i < |items| && key(items[i]) == k
  {
    set i | 0 <= i < |items| :: key(items[i])
  }

  /** The entries whose key is in a set (`inside`), or is not, in order. */
  function Filter(key: KeyOf, items: seq<Json>, ks: set<string>, inside: bool): (r: seq<Json>)
    ensures forall x :: x in r <==> x in items && (key(x) in ks) == inside
  {
    if items == [] then []
    else
      var n := |items| - 1;
      Filter(key, items[..n], ks, inside) + if (key(items[n]) in ks) == inside then [items[n]] else []
  }

  datatype Edit = Edit(add: seq<Json>, remove: seq<Json>)

  /** What next added to and removed from was. */
  function Delta(key: KeyOf, was: seq<Json>, next: seq<Json>): Edit {
    Edit(Filter(key, next, Keys(key, was), false), Filter(key, was, Keys(key, next), false))
  }

  /** The first entry of each key, of those with a key not in `have`. */
  function FirstOfEach(key: KeyOf, items: seq<Json>, have: set<string>): (r: seq<Json>)
    ensures forall x :: x in r ==> x in items && key(x) !in have
    ensures Keys(key, r) == Keys(key, items) - have
    ensures forall i, j :: 0 <= i < j < |r| ==> key(r[i]) != key(r[j])
  {
    if items == [] then []
    else
      var n := |items| - 1;
      var sofar := FirstOfEach(key, items[..n], have);
      var x := items[n];
      assert forall k :: k in Keys(key, items) <==> k in Keys(key, items[..n]) || k == key(x) by { KeysSnoc(key, items[..n], x); }
      if key(x) in have || key(x) in Keys(key, sofar) then sofar
      else
        KeysSnoc(key, sofar, x);
        sofar + [x]
  }

  lemma KeysSnoc(key: KeyOf, items: seq<Json>, x: Json)
    ensures Keys(key, items + [x]) == Keys(key, items) + {key(x)}
    ensures forall all :: |all| == |items| + 1 && all[..|items|] == items && all[|items|] == x ==> Keys(key, all) == Keys(key, items) + {key(x)}
  {
    var all := items + [x];
    forall k ensures k in Keys(key, all) <==> k in Keys(key, items) || k == key(x) {
      if i :| 0 <= i < |items| && key(items[i]) == k { assert key(all[i]) == k; }
      assert key(all[|items|]) == key(x);
    }
    forall other | |other| == |items| + 1 && other[..|items|] == items && other[|items|] == x ensures other == all {}
  }

  /** The list there is now, without what was removed, and with what was added
      once. */
  function Applied(key: KeyOf, current: seq<Json>, edit: Edit): seq<Json> {
    var kept := Filter(key, current, Keys(key, edit.remove), false);
    kept + FirstOfEach(key, edit.add, Keys(key, kept))
  }

  method ApplyListEdit(key: KeyOf, current: seq<Json>, edit: Edit) returns (out: seq<Json>)
    ensures out == Applied(key, current, edit)
  {
    hide Filter, FirstOfEach, Keys;
    ghost var kept := Filter(key, current, Keys(key, edit.remove), false);
    out := Filter(key, current, Keys(key, edit.remove), false);
    var have := Keys(key, out);
    FirstOfNone(key, have);
    assert edit.add[..0] == [] && kept + [] == kept;
    for n := 0 to |edit.add|
      invariant out == kept + FirstOfEach(key, edit.add[..n], Keys(key, kept))
      invariant have == Keys(key, kept) + Keys(key, FirstOfEach(key, edit.add[..n], Keys(key, kept)))
    {
      var x := edit.add[n];
      FirstOfMore(key, edit.add[..n], x, Keys(key, kept));
      assert edit.add[..n + 1] == edit.add[..n] + [x];
      var k := key(x);
      if k !in have {
        have := have + {k};
        out := out + [x];
      }
    }
    assert edit.add[..|edit.add|] == edit.add;
  }

  lemma FirstOfNone(key: KeyOf, have: set<string>)
    ensures FirstOfEach(key, [], have) == [] && Keys(key, []) == {}
  {}

  lemma FirstOfMore(key: KeyOf, items: seq<Json>, x: Json, have: set<string>)
    ensures var f := FirstOfEach(key, items, have);
      if key(x) in have || key(x) in Keys(key, f) then FirstOfEach(key, items + [x], have) == f
      else FirstOfEach(key, items + [x], have) == f + [x] && Keys(key, f + [x]) == Keys(key, f) + {key(x)}
  {
    hide Keys;
    assert (items + [x])[..|items|] == items;
    KeysSnoc(key, FirstOfEach(key, items, have), x);
  }

  /** What a page's change to a list becomes. */
  function Merged(key: KeyOf, was: seq<Json>, now: seq<Json>, next: seq<Json>): seq<Json> {
    if key(List(was)) == key(List(now)) then next else Applied(key, now, Delta(key, was, next))
  }

  lemma {:induction false} FilterKeys(key: KeyOf, items: seq<Json>, ks: set<string>)
    ensures Keys(key, Filter(key, items, ks, false)) == Keys(key, items) - ks
  {
    var r := Filter(key, items, ks, false);
    forall k ensures k in Keys(key, r) <==> k in Keys(key, items) && k !in ks {
      if i :| 0 <= i < |r| && key(r[i]) == k { assert r[i] in items; }
      if i :| 0 <= i < |items| && key(items[i]) == k && k !in ks { assert items[i] in r; }
    }
  }

  lemma KeysSum(key: KeyOf, a: seq<Json>, b: seq<Json>)
    ensures Keys(key, a + b) == Keys(key, a) + Keys(key, b)
  {
    forall k ensures k in Keys(key, a + b) <==> k in Keys(key, a) || k in Keys(key, b) {
      if i :| 0 <= i < |a| && key(a[i]) == k { assert key((a + b)[i]) == k; }
      if i :| 0 <= i < |b| && key(b[i]) == k { assert key((a + b)[|a| + i]) == k; }
    }
  }

  /** The three-way merge of a list that changed meanwhile: exactly the current
      entries the page did not remove, in their order, then what it added,
      each once; so nothing added elsewhere is lost. */
  lemma ThreeWay(key: KeyOf, was: seq<Json>, now: seq<Json>, next: seq<Json>)
    ensures var r := Applied(key, now, Delta(key, was, next)); var removed := Keys(key, was) - Keys(key, next);
      var kept := Filter(key, now, removed, false);
      && |kept| <= |r| && r[..|kept|] == kept
      && (forall x :: x in r[|kept|..] ==> x in next && key(x) !in Keys(key, was) && key(x) !in Keys(key, kept))
      && (forall i, j :: |kept| <= i < j < |r| ==> key(r[i]) != key(r[j]))
      && Keys(key, r) == (Keys(key, now) - removed) + (Keys(key, next) - Keys(key, was))
  {
    hide Keys, Filter, FirstOfEach;
    var d := Delta(key, was, next);
    FilterKeys(key, was, Keys(key, next));
    FilterKeys(key, next, Keys(key, was));
    var kept := Filter(key, now, Keys(key, d.remove), false);
    FilterKeys(key, now, Keys(key, d.remove));
    var more := FirstOfEach(key, d.add, Keys(key, kept));
    KeysSum(key, kept, more);
    assert Applied(key, now, d) == kept + more;
    assert (kept + more)[|kept|..] == more;
    forall i, j | |kept| <= i < j < |kept + more| ensures key((kept + more)[i]) != key((kept + more)[j]) {
      assert key(more[i - |kept|]) != key(more[j - |kept|]);
    }
  }

  /** Sending the page's own list when nothing changed agrees with that: the
      delta applied to the list it was read from gives the same entries. */
  lemma SameEntries(key: KeyOf, was: seq<Json>, next: seq<Json>)
    ensures Keys(key, Applied(key, was, Delta(key, was, next))) == Keys(key, next)
  {
    hide Keys, Applied, Delta;
    ThreeWay(key, was, was, next);
  }

  // ---- the merge entry by entry

  ghost predicate HasKey(key: KeyOf, items: seq<Json>, k: string) { exists i :: 0 <= i < |items| && key(items[i]) == k }

  /** The page had loaded an entry of this key and does not send one. */
  ghost predicate Removed(key: KeyOf, was: seq<Json>, next: seq<Json>, k: string) { HasKey(key, was, k) && !HasKey(key, next, k) }

  /** r holds the entries at the picked places, in their order. */
  ghost predicate Picked(items: seq<Json>, pick: int -> bool, r: seq<Json>) { exists at: seq<int> :: PickedAt(items, pick, r, at) }

  ghost predicate PickedAt(items: seq<Json>, pick: int -> bool, r: seq<Json>, at: seq<int>) {
    Taken(items, r, at) && Increasing(at) && forall j :: 0 <= j < |items| ==> (pick(j) <==> j in at)
  }

  ghost predicate Taken(items: seq<Json>, r: seq<Json>, at: seq<int>) {
    |at| == |r| && forall i :: 0 <= i < |at| ==> 0 <= at[i] < |items| && r[i] == items[at[i]]
  }

  ghost predicate Increasing(at: seq<int>) { forall i, j :: 0 <= i < j < |at| ==> at[i] < at[j] }

  /** The current entries the page did not remove, then the entries it sends
      under keys that were neither loaded nor are there, the first of each. */
  ghost predicate MergedList(key: KeyOf, was: seq<Json>, now: seq<Json>, next: seq<Json>, r: seq<Json>) {
    exists kept, more :: r == kept + more
      && Picked(now, j => 0 <= j < |now| && !Removed(key, was, next, key(now[j])), kept)
      && Picked(next, NewIn(key, was, kept, next), more)
  }

  /** The first entry under a key that was neither loaded nor is kept. */
  ghost function NewIn(key: KeyOf, was: seq<Json>, kept: seq<Json>, next: seq<Json>): int -> bool {
    j => 0 <= j < |next| && !HasKey(key, was, key(next[j])) && !HasKey(key, kept, key(next[j]))
      && forall i :: 0 <= i < j ==> key(next[i]) != key(next[j])
  }

  lemma TakenSnoc(items: seq<Json>, r: seq<Json>, at: seq<int>, x: Json)
    requires Taken(items, r, at)
    ensures Taken(items + [x], r, at) && Taken(items + [x], r + [x], at + [|items|])
  {}

  lemma IncreasingSnoc(at: seq<int>, n: int)
    requires Increasing(at) && forall i :: 0 <= i < |at| ==> at[i] < n
    ensures Increasing(at + [n])
  {}

  lemma InSnoc(at: seq<int>, n: int)
    ensures forall j :: j in at + [n] <==> j in at || j == n
  {}

  lemma PickedSnoc(items: seq<Json>, pick: int -> bool, r: seq<Json>, more: int -> bool, x: Json)
    requires Picked(items, pick, r) && forall j :: 0 <= j < |items| ==> pick(j) == more(j)
    ensures Picked(items + [x], more, if more(|items|) then r + [x] else r)
  {
    var n := |items|;
    var at :| PickedAt(items, pick, r, at);
    assert n !in at && forall i :: 0 <= i < |at| ==> at[i] < n;
    TakenSnoc(items, r, at, x);
    IncreasingSnoc(at, n);
    InSnoc(at, n);
    hide Taken, Increasing;
    if more(n) {
      assert PickedAt(items + [x], more, r + [x], at + [n]);
    } else {
      assert PickedAt(items + [x], more, r, at);
    }
  }

  lemma PickedSame(items: seq<Json>, pick: int -> bool, more: int -> bool, r: seq<Json>)
    requires Picked(items, pick, r) && forall j :: 0 <= j < |items| ==> pick(j) == more(j)
    ensures Picked(items, more, r)
  {
    var at :| PickedAt(items, pick, r, at);
    assert PickedAt(items, more, r, at);
  }

  ghost function KeyIn(key: KeyOf, items: seq<Json>, ks: set<string>, inside: bool): int -> bool {
    j => 0 <= j < |items| && (key(items[j]) in ks) == inside
  }

  lemma FilterSnoc(key: KeyOf, items: seq<Json>, ks: set<string>, inside: bool)
    requires items != []
    ensures var n := |items| - 1; var r := Filter(key, items[..n], ks, inside);
      Filter(key, items, ks, inside) == if (key(items[n]) in ks) == inside then r + [items[n]] else r
  {
    var r := Filter(key, items[..|items| - 1], ks, inside);
    assert r + [] == r;
  }

  lemma PickedNone(pick: int -> bool)
    ensures Picked([], pick, [])
  {
    assert PickedAt([], pick, [], []);
  }

  lemma {:induction false} FilterPicks(key: KeyOf, items: seq<Json>, ks: set<string>, inside: bool)
    ensures Picked(items, KeyIn(key, items, ks, inside), Filter(key, items, ks, inside))
    decreases |items|
  {
    hide Picked;
    if items == [] {
      PickedNone(KeyIn(key, items, ks, inside));
    } else {
      hide Filter;
      var n := |items| - 1;
      FilterPicks(key, items[..n], ks, inside);
      FilterSnoc(key, items, ks, inside);
      assert items[..n] + [items[n]] == items;
      PickedSnoc(items[..n], KeyIn(key, items[..n], ks, inside), Filter(key, items[..n], ks, inside), KeyIn(key, items, ks, inside), items[n]);
    }
  }

  ghost function FirstIn(key: KeyOf, items: seq<Json>, have: set<string>): int -> bool {
    j => 0 <= j < |items| && key(items[j]) !in have && forall i :: 0 <= i < j ==> key(items[i]) != key(items[j])
  }

  lemma {:induction false} FirstPicks(key: KeyOf, items: seq<Json>, have: set<string>)
    ensures Picked(items, FirstIn(key, items, have), FirstOfEach(key, items, have))
    decreases |items|
  {
    if items == [] {
      assert PickedAt([], FirstIn(key, items, have), [], []);
    } else {
      var n := |items| - 1;
      var sofar, x := FirstOfEach(key, items[..n], have), items[n];
      FirstPicks(key, items[..n], have);
      hide Picked;
      assert items[..n] + [x] == items;
      FirstOfMore(key, items[..n], x, have);
      assert FirstIn(key, items, have)(n) <==> key(x) !in have && key(x) !in Keys(key, sofar) by {
        assert Keys(key, sofar) == Keys(key, items[..n]) - have;
        if key(x) in Keys(key, items[..n]) {
          var i :| 0 <= i < n && key(items[..n][i]) == key(x);
          assert key(items[i]) == key(x);
        }
        if i :| 0 <= i < n && key(items[i]) == key(x) { assert key(items[..n][i]) == key(x); }
      }
      PickedSnoc(items[..n], FirstIn(key, items[..n], have), sofar, FirstIn(key, items, have), x);
    }
  }

  function Through(at: seq<int>, again: seq<int>): (r: seq<int>)
    requires forall i :: 0 <= i < |again| ==> 0 <= again[i] < |at|
    ensures |r| == |again| && forall i :: 0 <= i < |r| ==> r[i] == at[again[i]]
  {
    seq(|again|, i requires 0 <= i < |again| => at[again[i]])
  }

  lemma TakenThrough(items: seq<Json>, mid: seq<Json>, at: seq<int>, r: seq<Json>, again: seq<int>)
    requires Taken(items, mid, at) && Taken(mid, r, again) && Increasing(at) && Increasing(again)
    ensures Taken(items, r, Through(at, again)) && Increasing(Through(at, again))
  {}

  lemma InThrough(at: seq<int>, again: seq<int>, j: int)
    requires Increasing(at) && forall i :: 0 <= i < |again| ==> 0 <= again[i] < |at|
    ensures j in Through(at, again) <==> exists i :: 0 <= i < |at| && at[i] == j && i in again
  {
    var all := Through(at, again);
    if j in all {
      var k :| 0 <= k < |all| && all[k] == j;
      assert at[again[k]] == j && again[k] in again;
    }
    if i :| 0 <= i < |at| && at[i] == j && i in again {
      var k :| 0 <= k < |again| && again[k] == i;
      assert all[k] == j;
    }
  }

  /** What is picked of what was picked. */
  lemma PickedTwice(items: seq<Json>, pick: int -> bool, mid: seq<Json>, at: seq<int>, again: int -> bool, r: seq<Json>, both: int -> bool)
    requires PickedAt(items, pick, mid, at) && Picked(mid, again, r)
    requires forall i :: 0 <= i < |at| ==> (again(i) <==> both(at[i]))
    requires forall j :: 0 <= j < |items| && both(j) ==> pick(j)
    ensures Picked(items, both, r)
  {
    var at2 :| PickedAt(mid, again, r, at2);
    TakenThrough(items, mid, at, r, at2);
    forall j | 0 <= j < |items| ensures both(j) <==> j in Through(at, at2) {
      InThrough(at, at2, j);
      if both(j) { assert j in at; }
    }
    hide Taken, Increasing, Through;
    assert PickedAt(items, both, r, Through(at, at2));
  }

  lemma NewPicks(key: KeyOf, was: seq<Json>, kept: seq<Json>, next: seq<Json>)
    ensures var add := Filter(key, next, Keys(key, was), false);
      Picked(next, NewIn(key, was, kept, next), FirstOfEach(key, add, Keys(key, kept)))
  {
    var add := Filter(key, next, Keys(key, was), false);
    FilterPicks(key, next, Keys(key, was), false);
    FirstPicks(key, add, Keys(key, kept));
    var pick := KeyIn(key, next, Keys(key, was), false);
    var at :| PickedAt(next, pick, add, at);
    forall i | 0 <= i < |at| ensures FirstIn(key, add, Keys(key, kept))(i) <==> NewIn(key, was, kept, next)(at[i]) {
      FirstAgrees(key, was, kept, next, add, at, i);
    }
    PickedTwice(next, pick, add, at, FirstIn(key, add, Keys(key, kept)), FirstOfEach(key, add, Keys(key, kept)), NewIn(key, was, kept, next));
  }

  lemma EarlierAdded(key: KeyOf, was: seq<Json>, next: seq<Json>, add: seq<Json>, at: seq<int>, i: int, j: int)
    requires PickedAt(next, KeyIn(key, next, Keys(key, was), false), add, at) && 0 <= i < |at|
    requires 0 <= j < at[i] && key(next[j]) == key(next[at[i]])
    ensures exists m :: 0 <= m < i && key(add[m]) == key(add[i])
  {
    assert at[i] in at;
    assert KeyIn(key, next, Keys(key, was), false)(j);
    var m :| 0 <= m < |at| && at[m] == j;
    assert key(add[m]) == key(add[i]);
  }

  /** First among what the page added is first among what it sends. */
  lemma FirstAgrees(key: KeyOf, was: seq<Json>, kept: seq<Json>, next: seq<Json>, add: seq<Json>, at: seq<int>, i: int)
    requires PickedAt(next, KeyIn(key, next, Keys(key, was), false), add, at) && 0 <= i < |at|
    ensures FirstIn(key, add, Keys(key, kept))(i) <==> NewIn(key, was, kept, next)(at[i])
  {
    var k := key(next[at[i]]);
    assert at[i] in at && KeyIn(key, next, Keys(key, was), false)(at[i]);
    assert key(add[i]) == k && !HasKey(key, was, k);
    if FirstIn(key, add, Keys(key, kept))(i) {
      forall j | 0 <= j < at[i] ensures key(next[j]) != k {
        if key(next[j]) == k { EarlierAdded(key, was, next, add, at, i, j); }
      }
    }
    if NewIn(key, was, kept, next)(at[i]) {
      forall m | 0 <= m < i ensures key(add[m]) != key(add[i]) { assert at[m] < at[i] && key(next[at[m]]) != k; }
    }
  }

  /** Applying the page's change gives that merge. */
  lemma AppliedIsMerge(key: KeyOf, was: seq<Json>, now: seq<Json>, next: seq<Json>)
    ensures MergedList(key, was, now, next, Applied(key, now, Delta(key, was, next)))
  {
    hide Picked, NewIn;
    var d := Delta(key, was, next);
    var gone := Keys(key, d.remove);
    var kept := Filter(key, now, gone, false);
    var more := FirstOfEach(key, d.add, Keys(key, kept));
    FilterKeys(key, was, Keys(key, next));
    FilterPicks(key, now, gone, false);
    var pick: int -> bool := j => 0 <= j < |now| && !Removed(key, was, next, key(now[j]));
    PickedSame(now, KeyIn(key, now, gone, false), pick, kept);
    NewPicks(key, was, kept, next);
    assert Applied(key, now, d) == kept + more;
  }

  lemma MergedIs(key: KeyOf, was: seq<Json>, now: seq<Json>, next: seq<Json>)
    ensures if key(List(was)) == key(List(now)) then Merged(key, was, now, next) == next
            else MergedList(key, was, now, next, Merged(key, was, now, next))
  {
    hide MergedList;
    AppliedIsMerge(key, was, now, next);
  }

  // ---- whole patches

  function Find(fields: seq<Field>, name: string): Option<Json> {
    if fields == [] then None
    else if fields[0].name == name then Some(fields[0].value) else Find(fields[1..], name)
  }

  function FieldsOf(j: Option<Json>): seq<Field> {
    match j case Some(Obj(fields)) => fields case _ => []
  }

  function MergePatch(key: KeyOf, loaded: Option<Json>, current: Option<Json>, patch: Json): Json
    decreases patch
  {
    match patch
    case Obj(fields) => Obj(MergeFields(key, FieldsOf(loaded), FieldsOf(current), fields))
    case _ => patch
  }

  function MergeFields(key: KeyOf, l: seq<Field>, f: seq<Field>, fields: seq<Field>): (r: seq<Field>)
    ensures |r| == |fields| && forall k :: 0 <= k < |r| ==> r[k].name == fields[k].name
    decreases fields
  {
    if fields == [] then [] else [MergeField(key, l, f, fields[0])] + MergeFields(key, l, f, fields[1..])
  }

  function MergeField(key: KeyOf, l: seq<Field>, f: seq<Field>, e: Field): (r: Field)
    ensures r.name == e.name
    decreases e
  {
    var was, now := Find(l, e.name), Find(f, e.name);
    if e.value.List? && was.Some? && was.value.List? && now.Some? && now.value.List? then
      Field(e.name, List(Merged(key, was.value.items, now.value.items, e.value.items)))
    else Field(e.name, if e.value.Obj? then MergePatch(key, was, now, e.value) else e.value)
  }

  method MergeListPatch(key: KeyOf, loaded: Option<Json>, current: Option<Json>, patch: Json) returns (r: Json)
    ensures r == MergePatch(key, loaded, current, patch)
    decreases patch
  {
    if !patch.Obj? { return patch; }
    var l, f := FieldsOf(loaded), FieldsOf(current);
    var out := MergeLoop(key, l, f, patch.fields);
    return Obj(out);
  }

  method MergeLoop(key: KeyOf, l: seq<Field>, f: seq<Field>, fields: seq<Field>) returns (out: seq<Field>)
    ensures out == MergeFields(key, l, f, fields)
    decreases fields
  {
    hide MergeField, MergeFields;
    out := [];
    assert fields[0..] == fields;
    for k := 0 to |fields|
      invariant out + MergeFields(key, l, f, fields[k..]) == MergeFields(key, l, f, fields)
    {
      OneField(key, l, f, fields, k, out);
      var one := MergeOne(key, l, f, fields[k]);
      out := out + [one];
    }
    NoFields(key, l, f);
    assert fields[|fields|..] == [] && out + [] == out;
  }

  lemma NoFields(key: KeyOf, l: seq<Field>, f: seq<Field>)
    ensures MergeFields(key, l, f, []) == []
  {}

  lemma OneField(key: KeyOf, l: seq<Field>, f: seq<Field>, fields: seq<Field>, k: nat, out: seq<Field>)
    requires k < |fields|
    ensures out + MergeFields(key, l, f, fields[k..])
         == out + [MergeField(key, l, f, fields[k])] + MergeFields(key, l, f, fields[k + 1..])
  {
    hide MergeField;
    assert fields[k..][1..] == fields[k + 1..];
  }

  method MergeOne(key: KeyOf, l: seq<Field>, f: seq<Field>, e: Field) returns (r: Field)
    ensures r == MergeField(key, l, f, e)
    decreases e
  {
    var was, now := Find(l, e.name), Find(f, e.name);
    if e.value.List? && was.Some? && was.value.List? && now.Some? && now.value.List? {
      if key(was.value) == key(now.value) { return e; }
      var out := ApplyListEdit(key, now.value.items, Delta(key, was.value.items, e.value.items));
      return Field(e.name, List(out));
    }
    if !e.value.Obj? { return e; }
    var v := MergeListPatch(key, was, now, e.value);
    return Field(e.name, v);
  }

  /** The value at a path of names. */
  function At(j: Option<Json>, path: seq<string>): Option<Json>
    decreases |path|
  {
    if path == [] then j else At(Find(FieldsOf(j), path[0]), path[1..])
  }

  /** What the merged patch holds where the patch holds this. */
  ghost predicate MergedAt(key: KeyOf, was: Option<Json>, now: Option<Json>, v: Option<Json>, r: Option<Json>) {
    match v
    case None => r == None
    case Some(Plain(_)) => r == v
    case Some(List(items)) =>
      if was.Some? && was.value.List? && now.Some? && now.value.List? && key(was.value) != key(now.value) then
        r.Some? && r.value.List? && MergedList(key, was.value.items, now.value.items, items, r.value.items)
      else r == v
    case Some(Obj(fields)) =>
      && r.Some? && r.value.Obj? && |r.value.fields| == |fields|
      && forall k :: 0 <= k < |fields| ==> r.value.fields[k].name == fields[k].name
  }

  lemma {:induction false} FindMerged(key: KeyOf, l: seq<Field>, f: seq<Field>, fields: seq<Field>, name: string)
    ensures Find(fields, name) == None ==> Find(MergeFields(key, l, f, fields), name) == None
    ensures Find(fields, name).Some? ==>
      Find(MergeFields(key, l, f, fields), name) == Some(MergeField(key, l, f, Field(name, Find(fields, name).value)).value)
  {
    hide MergeField;
    if fields != [] {
      assert MergeFields(key, l, f, fields)[1..] == MergeFields(key, l, f, fields[1..]);
      FindMerged(key, l, f, fields[1..], name);
    }
  }

  /** At every depth: a list that changed since it was loaded comes out as the
      merge of the lists loaded, current and sent at the same place; every other
      list comes out as the page sends it, everything else in the patch stays,
      and nothing is added to it. */
  lemma {:induction false} EveryDepth(key: KeyOf, loaded: Option<Json>, current: Option<Json>, patch: Json, path: seq<string>)
    requires path != []
    ensures MergedAt(key, At(loaded, path), At(current, path), At(Some(patch), path), At(Some(MergePatch(key, loaded, current, patch)), path))
    decreases |path|
  {
    hide Merged, Find, MergedList;
    if patch.Obj? {
      var l, f, name := FieldsOf(loaded), FieldsOf(current), path[0];
      FindMerged(key, l, f, patch.fields, name);
      var v := Find(patch.fields, name);
      var r := Find(MergeFields(key, l, f, patch.fields), name);
      if |path| == 1 {
        assert path[1..] == [];
        LastMerged(key, Find(l, name), Find(f, name), l, f, patch.fields, name);
      } else if v.Some? && v.value.Obj? {
        EveryDepth(key, Find(l, name), Find(f, name), v.value, path[1..]);
      } else {
        NothingBelow(v, path[1..]);
        NothingBelow(r, path[1..]);
      }
    } else {
      NothingBelow(Some(patch), path);
    }
  }

  lemma LastMerged(key: KeyOf, was: Option<Json>, now: Option<Json>, l: seq<Field>, f: seq<Field>, fields: seq<Field>, name: string)
    requires was == Find(l, name) && now == Find(f, name)
    ensures MergedAt(key, was, now, Find(fields, name), Find(MergeFields(key, l, f, fields), name))
  {
    hide Merged, Find, MergedList, MergeFields;
    FindMerged(key, l, f, fields, name);
    var v := Find(fields, name);
    if v.Some? && v.value.List? && was.Some? && was.value.List? && now.Some? && now.value.List? {
      MergedIs(key, was.value.items, now.value.items, v.value.items);
    }
  }

  lemma {:induction false} NothingBelow(j: Option<Json>, path: seq<string>)
    requires path != [] && (j.Some? ==> !j.value.Obj?)
    ensures At(j, path) == None
    decreases |path|
  {
    if |path| > 1 { NothingBelow(None, path[1..]); }
  }

  /** At some path the patch has a list where the page had loaded one. */
  predicate PatchHasLists(loaded: Option<Json>, patch: Json)
    decreases patch
  {
    loaded.Some? && loaded.value.Obj? && patch.Obj? && AnyLists(loaded.value.fields, patch.fields)
  }

  predicate AnyLists(l: seq<Field>, fields: seq<Field>)
    decreases fields
  {
    fields != [] && (HasList(l, fields[0]) || AnyLists(l, fields[1..]))
  }

  predicate HasList(l: seq<Field>, e: Field)
    decreases e
  {
    var was := Find(l, e.name);
    if e.value.List? then was.Some? && was.value.List? else PatchHasLists(was, e.value)
  }

  /** A patch without such a list needs no merging: it would come out as it is. */
  lemma {:induction false} NothingToMerge(key: KeyOf, loaded: Option<Json>, current: Option<Json>, patch: Json)
    requires !PatchHasLists(loaded, patch)
    ensures MergePatch(key, loaded, current, patch) == patch
    decreases patch
  {
    NothingLoaded(if patch.Obj? then patch.fields else []);
    if patch.Obj? { NoneToMerge(key, FieldsOf(loaded), FieldsOf(current), patch.fields, loaded); }
  }

  lemma {:induction false} NothingLoaded(fields: seq<Field>)
    ensures !AnyLists([], fields)
  {
    if fields != [] {
      assert !HasList([], fields[0]);
      NothingLoaded(fields[1..]);
    }
  }

  lemma {:induction false} NoneToMerge(key: KeyOf, l: seq<Field>, f: seq<Field>, fields: seq<Field>, loaded: Option<Json>)
    requires !AnyLists(l, fields)
    ensures MergeFields(key, l, f, fields) == fields
    decreases fields
  {
    hide HasList, MergeField;
    if fields != [] {
      OneToMerge(key, l, f, fields[0]);
      NoneToMerge(key, l, f, fields[1..], loaded);
    }
  }

  lemma {:induction false} OneToMerge(key: KeyOf, l: seq<Field>, f: seq<Field>, e: Field)
    requires !HasList(l, e)
    ensures MergeField(key, l, f, e) == e
    decreases e
  {
    var was, now := Find(l, e.name), Find(f, e.name);
    if e.value.Obj? { NothingToMerge(key, was, now, e.value); }
  }
}
