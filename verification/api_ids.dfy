/**
  The API-id allocator of the callback generator: the enum of ids that exists, the
  names that the library has now, and the enum that is written, which is read back
  the next time.

  An enum line `name_id=7,` is an entry; the header gives no ids of its own.
 */
module ApiIds {
  import opened ViewRecordInfo

  type Name = string

  datatype Entry = Entry(name: Name, id: nat)

  // ---------------------------------------------------------------- the numbering

  /** Ids are unique and positive: 0 is the reserved line. */
  ghost predicate IsNumbering(ids: map<Name, nat>) {
    && (forall name :: name in ids ==> ids[name] > 0)
    && (forall a, b :: a in ids && b in ids && ids[a] == ids[b] ==> a == b)
  }

  /** `next` is above every id. */
  ghost predicate Above(next: nat, ids: map<Name, nat>) {
    next > 0 && forall name :: name in ids ==> ids[name] < next
  }

  predicate Distinct(names: seq<Name>) {
    forall i, k :: 0 <= i < k < |names| ==> names[i] != names[k]
  }

  /** How many of the names have no id yet. */
  function NewNames(ids: map<Name, nat>, names: seq<Name>): nat {
    if names == [] then 0
    else NewNames(ids, names[..|names| - 1]) + (if names[|names| - 1] in ids then 0 else 1)
  }

  /** The ids of the listed names: the old one, or the next free one in the order of the list. */
  function Assigned(ids: map<Name, nat>, next: nat, names: seq<Name>): map<Name, nat> {
    if names == [] then map[]
    else
      var before, name := names[..|names| - 1], names[|names| - 1];
      Assigned(ids, next, before)[name := if name in ids then ids[name] else next + NewNames(ids, before)]
  }

  /** All ids after a generation. */
  function Numbering(ids: map<Name, nat>, next: nat, names: seq<Name>): map<Name, nat> {
    ids + Assigned(ids, next, names)
  }

  /** The listed names and no others get ids; an old one stays, a new one is fresh. */
  lemma {:induction false} AssignedIs(ids: map<Name, nat>, next: nat, names: seq<Name>)
    ensures forall name :: name in Assigned(ids, next, names) <==> name in names
    ensures forall name :: name in names ==>
              var id := Assigned(ids, next, names)[name];
              if name in ids then id == ids[name] else next <= id < next + NewNames(ids, names)
  {
    if names != [] {
      AssignedIs(ids, next, names[..|names| - 1]);
      assert names == names[..|names| - 1] + [names[|names| - 1]];
    }
  }

  lemma {:induction false} AssignedUnique(ids: map<Name, nat>, next: nat, names: seq<Name>)
    requires IsNumbering(ids) && Above(next, ids) && Distinct(names)
    ensures IsNumbering(Assigned(ids, next, names))
  {
    if names != [] {
      AssignedUnique(ids, next, names[..|names| - 1]);
      AssignedIs(ids, next, names[..|names| - 1]);
    }
  }

  /** New names get the next ids one by one, in the order of the list. */
  lemma {:induction false} NewIdsInOrder(ids: map<Name, nat>, next: nat, names: seq<Name>, i: nat)
    requires Distinct(names) && i < |names| && names[i] !in ids
    ensures names[i] in Assigned(ids, next, names)
    ensures Assigned(ids, next, names)[names[i]] == next + |set k | 0 <= k < i && names[k] !in ids|
  {
    var before := names[..|names| - 1];
    if i < |before| {
      NewIdsInOrder(ids, next, before, i);
      assert (set k | 0 <= k < i && before[k] !in ids) == (set k | 0 <= k < i && names[k] !in ids);
    } else {
      NewAreCounted(ids, before);
      assert (set k | 0 <= k < i && before[k] !in ids) == (set k | 0 <= k < i && names[k] !in ids);
    }
  }

  lemma {:induction false} NewAreCounted(ids: map<Name, nat>, names: seq<Name>)
    ensures NewNames(ids, names) == |set k | 0 <= k < |names| && names[k] !in ids|
  {
    if names != [] {
      var before, n := names[..|names| - 1], |names| - 1;
      NewAreCounted(ids, before);
      var fewer := set k | 0 <= k < |before| && before[k] !in ids;
      var all := set k | 0 <= k < |names| && names[k] !in ids;
      assert all == if names[n] in ids then fewer else fewer + {n};
    }
  }

  /** Every id of the first numbering is in the second. */
  ghost predicate Keeps(ids: map<Name, nat>, after: map<Name, nat>) {
    forall name :: name in ids ==> name in after && after[name] == ids[name]
  }

  /** What the second numbering adds starts at `next`. */
  ghost predicate AddsFrom(ids: map<Name, nat>, after: map<Name, nat>, next: nat) {
    forall name :: name in after && name !in ids ==> after[name] >= next
  }

  lemma KeepsOn(ids: map<Name, nat>, next: nat, ids': map<Name, nat>, next': nat, after: map<Name, nat>)
    requires Keeps(ids, ids') && AddsFrom(ids, ids', next) && next <= next'
    requires Keeps(ids', after) && AddsFrom(ids', after, next')
    ensures Keeps(ids, after) && AddsFrom(ids, after, next)
  {
  }

  /**
    Stable numbering: every id stays, no entry goes, a new name gets an id above all
    that existed, every listed name has one, and ids stay unique.
   */
  lemma NumberingIsStable(ids: map<Name, nat>, next: nat, names: seq<Name>)
    requires IsNumbering(ids) && Above(next, ids) && Distinct(names)
    ensures var after := Numbering(ids, next, names);
            && IsNumbering(after) && Above(next + NewNames(ids, names), after)
            && Keeps(ids, after) && AddsFrom(ids, after, next)
            && (forall name :: name in after <==> name in ids || name in names)
  {
    AssignedIs(ids, next, names);
    AssignedUnique(ids, next, names);
  }

  /** Names that all have ids change nothing. */
  lemma KnownNamesChangeNothing(ids: map<Name, nat>, next: nat, names: seq<Name>)
    requires forall i :: 0 <= i < |names| ==> names[i] in ids
    ensures Numbering(ids, next, names) == ids
  {
    AssignedIs(ids, next, names);
  }

  /** Generating again from what was generated changes nothing. */
  lemma RegeneratingChangesNothing(ids: map<Name, nat>, next: nat, names: seq<Name>, next': nat)
    requires IsNumbering(ids) && Above(next, ids) && Distinct(names)
    ensures var after := Numbering(ids, next, names); Numbering(after, next', names) == after
  {
    NumberingIsStable(ids, next, names);
    KnownNamesChangeNothing(Numbering(ids, next, names), next', names);
  }

  // ---------------------------------------------------------------- the enum file

  predicate Sorted(list: seq<Entry>) {
    forall i, k :: 0 <= i < k < |list| ==> list[i].id < list[k].id
  }

  /** The list holds exactly the ids of the map, in order. */
  ghost predicate Lists(list: seq<Entry>, ids: map<Name, nat>) {
    && Sorted(list)
    && (forall e: Entry :: e in list <==> e.name in ids && ids[e.name] == e.id)
  }

  lemma EmptyList(list: seq<Entry>, ids: map<Name, nat>)
    requires Lists(list, ids)
    ensures list == [] <==> ids == map[]
  {
    forall name | name in ids ensures list != [] { assert Entry(name, ids[name]) in list; }
    if list != [] {
      assert list[0] in list;
    }
  }

  /** There is only one such list, so equal numberings are equal files. */
  lemma {:induction false} OneList(a: seq<Entry>, b: seq<Entry>, ids: map<Name, nat>)
    requires Lists(a, ids) && Lists(b, ids)
    ensures a == b
    decreases |a|
  {
    EmptyList(a, ids);
    EmptyList(b, ids);
    if a != [] {
      assert a[0] in a && a[0] in b;
      var i :| 0 <= i < |b| && b[i] == a[0];
      assert b[0] in b && b[0] in a;
      var k :| 0 <= k < |a| && a[k] == b[0];
      assert a[0] == b[0];
      var rest := ids - {a[0].name};
      ListsTail(a, ids);
      ListsTail(b, ids);
      OneList(a[1..], b[1..], rest);
    }
  }

  lemma ListsTail(list: seq<Entry>, ids: map<Name, nat>)
    requires Lists(list, ids) && list != []
    ensures Lists(list[1..], ids - {list[0].name})
  {
    var rest := list[1..];
    forall e: Entry ensures e in rest <==> e.name in ids - {list[0].name} && ids[e.name] == e.id {
      assert list[0] in list;
      if e in rest {
        assert e in list;
        var i :| 0 <= i < |rest| && rest[i] == e;
        assert list[i + 1] == e;
      } else if e in list {
        assert e == list[0];
      }
    }
  }

  lemma InsertedIsSorted(list: seq<Entry>, e: Entry, at: nat)
    requires Sorted(list) && at <= |list|
    requires forall i :: 0 <= i < at ==> list[i].id < e.id
    requires forall i :: at <= i < |list| ==> e.id < list[i].id
    ensures Sorted(list[..at] + [e] + list[at..])
    ensures forall x :: x in list[..at] + [e] + list[at..] <==> x == e || x in list
  {
    assert list == list[..at] + list[at..];
  }

  lemma InsertedLists(list: seq<Entry>, ids: map<Name, nat>, e: Entry, list': seq<Entry>)
    requires Lists(list, ids) && e.name !in ids
    requires Sorted(list') && forall x :: x in list' <==> x == e || x in list
    ensures Lists(list', ids[e.name := e.id])
  {
    assert e.name !in ids;
  }

  // ---------------------------------------------------------------- over the years

  /** `next` is what the file read back gives: one more than the largest id, or 1. */
  ghost predicate IsNext(next: nat, ids: map<Name, nat>) {
    Above(next, ids) && (if ids == map[] then next == 1 else exists name :: name in ids && ids[name] + 1 == next)
  }

  lemma {:induction false} LastNewName(ids: map<Name, nat>, next: nat, names: seq<Name>)
    requires NewNames(ids, names) > 0 && Distinct(names)
    ensures exists name :: name in Assigned(ids, next, names)
                           && Assigned(ids, next, names)[name] + 1 == next + NewNames(ids, names)
  {
    var before, name := names[..|names| - 1], names[|names| - 1];
    if name in ids {
      LastNewName(ids, next, before);
      var last :| last in Assigned(ids, next, before)
                  && Assigned(ids, next, before)[last] + 1 == next + NewNames(ids, before);
      AssignedIs(ids, next, before);
      assert name !in before && last in before;
      assert last in Assigned(ids, next, names) && Assigned(ids, next, names)[last] + 1 == next + NewNames(ids, names);
    } else {
      assert Assigned(ids, next, names)[name] + 1 == next + NewNames(ids, names);
    }
  }

  /** Reading the file back gives the number the generator would have gone on with. */
  lemma NextAfter(ids: map<Name, nat>, next: nat, names: seq<Name>)
    requires IsNumbering(ids) && IsNext(next, ids) && Distinct(names)
    ensures IsNext(next + NewNames(ids, names), Numbering(ids, next, names))
  {
    NumberingIsStable(ids, next, names);
    AssignedIs(ids, next, names);
    if NewNames(ids, names) > 0 {
      LastNewName(ids, next, names);
    } else {
      NoneIsNew(ids, names);
      KnownNamesChangeNothing(ids, next, names);
    }
  }

  lemma {:induction false} NoneIsNew(ids: map<Name, nat>, names: seq<Name>)
    ensures NewNames(ids, names) == 0 <==> forall i :: 0 <= i < |names| ==> names[i] in ids
  {
    if names != [] {
      NoneIsNew(ids, names[..|names| - 1]);
    }
  }

  /** The numbering after generations with these lists of names. */
  function Generations(ids: map<Name, nat>, next: nat, lists: seq<seq<Name>>): map<Name, nat>
    decreases |lists|
  {
    if lists == [] then ids
    else Generations(Numbering(ids, next, lists[0]), next + NewNames(ids, lists[0]), lists[1..])
  }

  /** An id, once given, never changes, is never taken away and never given to another name. */
  lemma {:induction false} IdsNeverChange(ids: map<Name, nat>, next: nat, lists: seq<seq<Name>>)
    requires IsNumbering(ids) && Above(next, ids) && forall i :: 0 <= i < |lists| ==> Distinct(lists[i])
    ensures var after := Generations(ids, next, lists);
            IsNumbering(after) && Keeps(ids, after) && AddsFrom(ids, after, next)
    decreases |lists|
  {
    if lists != [] {
      var ids', next' := Numbering(ids, next, lists[0]), next + NewNames(ids, lists[0]);
      NumberingIsStable(ids, next, lists[0]);
      IdsNeverChange(ids', next', lists[1..]);
      KeepsOn(ids, next, ids', next', Generations(ids', next', lists[1..]));
    }
  }

  /** The next free id after generations with these lists. */
  function NextAfterAll(ids: map<Name, nat>, next: nat, lists: seq<seq<Name>>): nat
    decreases |lists|
  {
    if lists == [] then next
    else NextAfterAll(Numbering(ids, next, lists[0]), next + NewNames(ids, lists[0]), lists[1..])
  }

  lemma {:induction false} GenerationsInTwo(ids: map<Name, nat>, next: nat, earlier: seq<seq<Name>>,
                                            later: seq<seq<Name>>)
    ensures Generations(ids, next, earlier + later)
            == Generations(Generations(ids, next, earlier), NextAfterAll(ids, next, earlier), later)
    decreases |earlier|
  {
    var lists := earlier + later;
    if earlier == [] {
      assert lists == later;
    } else {
      var ids', next' := Numbering(ids, next, earlier[0]), next + NewNames(ids, earlier[0]);
      assert lists[0] == earlier[0] && lists[1..] == earlier[1..] + later;
      GenerationsInTwo(ids', next', earlier[1..], later);
      assert Generations(ids, next, lists) == Generations(ids', next', lists[1..]);
    }
  }

  lemma {:induction false} AboveAfterAll(ids: map<Name, nat>, next: nat, lists: seq<seq<Name>>)
    requires IsNumbering(ids) && Above(next, ids) && forall i :: 0 <= i < |lists| ==> Distinct(lists[i])
    ensures Above(NextAfterAll(ids, next, lists), Generations(ids, next, lists))
    decreases |lists|
  {
    if lists != [] {
      NumberingIsStable(ids, next, lists[0]);
      AboveAfterAll(Numbering(ids, next, lists[0]), next + NewNames(ids, lists[0]), lists[1..]);
    }
  }

  /** The id a name has after any generation is the id it has after every later one. */
  lemma IdsLast(ids: map<Name, nat>, next: nat, earlier: seq<seq<Name>>, later: seq<seq<Name>>)
    requires IsNumbering(ids) && Above(next, ids)
    requires forall i :: 0 <= i < |earlier| ==> Distinct(earlier[i])
    requires forall i :: 0 <= i < |later| ==> Distinct(later[i])
    ensures Keeps(Generations(ids, next, earlier), Generations(ids, next, earlier + later))
  {
    GenerationsInTwo(ids, next, earlier, later);
    IdsNeverChange(ids, next, earlier);
    AboveAfterAll(ids, next, earlier);
    IdsNeverChange(Generations(ids, next, earlier), NextAfterAll(ids, next, earlier), later);
  }

  // ---------------------------------------------------------------- the loops

  function IdsOf(file: seq<Entry>): set<nat> {
    set e | e in file :: e.id
  }

  /** The dictionary a reader fills line by line: of lines with the same name the last one counts. */
  function Entries(file: seq<Entry>): map<Name, nat> {
    if file == [] then map[]
    else Entries(file[..|file| - 1])[file[|file| - 1].name := file[|file| - 1].id]
  }

  /** Ids of different lines differ. */
  predicate IdsDistinct(file: seq<Entry>) {
    forall i, k :: 0 <= i < k < |file| ==> file[i].id != file[k].id
  }

  predicate NamesDistinct(file: seq<Entry>) {
    forall i, k :: 0 <= i < k < |file| ==> file[i].name != file[k].name
  }

  /** If every name stands on one line, the dictionary is the file. */
  lemma {:induction false} EntriesAre(file: seq<Entry>)
    requires NamesDistinct(file)
    ensures forall e: Entry :: e in file <==> e.name in Entries(file) && Entries(file)[e.name] == e.id
  {
    if file != [] {
      var before, last := file[..|file| - 1], file[|file| - 1];
      EntriesAre(before);
      assert forall e: Entry :: e in file <==> e in before || e == last;
      assert forall e: Entry :: e in before ==> e.name != last.name;
    }
  }

  /** Line `i` is the last one with its name. */
  ghost predicate LastLine(file: seq<Entry>, i: nat) {
    i < |file| && forall k :: i < k < |file| ==> file[k].name != file[i].name
  }

  /** The dictionary has the name of each line, with the id of the last line of that name. */
  lemma {:induction false} LastLineCounts(file: seq<Entry>, i: nat)
    requires LastLine(file, i)
    ensures file[i].name in Entries(file) && Entries(file)[file[i].name] == file[i].id
    decreases |file|
  {
    var before := file[..|file| - 1];
    if i < |before| {
      assert file[|before|].name != file[i].name;
      LastLineCounts(before, i);
    }
  }

  /** And no other names. */
  lemma {:induction false} LineOf(file: seq<Entry>, name: Name) returns (i: nat)
    requires name in Entries(file)
    ensures LastLine(file, i) && file[i].name == name
    decreases |file|
  {
    var before, last := file[..|file| - 1], file[|file| - 1];
    if last.name == name {
      i := |before|;
    } else {
      i := LineOf(before, name);
    }
  }

  /** `next` is one more than the largest id of the lines, or 1. */
  ghost predicate NextOf(next: nat, idSet: set<nat>) {
    && (forall id :: id in idSet ==> id < next)
    && (if idSet == {} then next == 1 else next > 0 && next - 1 in idSet)
  }

  /** The loop has read `n` lines: no id came twice. */
  ghost predicate HasRead(file: seq<Entry>, n: nat, ids: map<Name, nat>, idSet: set<nat>, next: nat) {
    && n <= |file| && IdsDistinct(file[..n])
    && ids == Entries(file[..n]) && idSet == IdsOf(file[..n]) && NextOf(next, idSet)
  }

  lemma IdsOfOneMore(file: seq<Entry>, n: nat)
    requires n < |file|
    ensures IdsOf(file[..n + 1]) == IdsOf(file[..n]) + {file[n].id}
    ensures Entries(file[..n + 1]) == Entries(file[..n])[file[n].name := file[n].id]
  {
    assert file[..n + 1] == file[..n] + [file[n]];
    assert file[..n + 1][..n] == file[..n];
    assert forall e :: e in file[..n + 1] <==> e in file[..n] || e == file[n];
  }

  /** An id that came before shows in the set. */
  lemma IdComesTwice(file: seq<Entry>, n: nat)
    requires n < |file| && IdsDistinct(file[..n])
    ensures file[n].id in IdsOf(file[..n]) <==> !IdsDistinct(file[..n + 1])
  {
    assert forall i :: 0 <= i < n ==> file[..n][i] in file[..n] && file[..n + 1][i] == file[..n][i];
    assert file[..n + 1][n] == file[n];
    if file[n].id in IdsOf(file[..n]) {
      var e :| e in file[..n] && e.id == file[n].id;
      var i :| 0 <= i < n && file[..n][i] == e;
      assert file[..n + 1][i].id == file[..n + 1][n].id;
    }
  }

  lemma DistinctPrefix(file: seq<Entry>, n: nat)
    requires n <= |file| && !IdsDistinct(file[..n])
    ensures !IdsDistinct(file)
  {
    var i, k :| 0 <= i < k < n && file[..n][i].id == file[..n][k].id;
    assert file[i].id == file[k].id;
  }

  lemma NextOfOneMore(next: nat, idSet: set<nat>, id: nat)
    requires NextOf(next, idSet)
    ensures NextOf(if idSet == {} || next < id + 1 then id + 1 else next, idSet + {id})
  {
  }

  /** One line of the file: its entry is collected, unless its id has come before. */
  method ReadEntry(file: seq<Entry>, n: nat, ids: map<Name, nat>, idSet: set<nat>, next: nat)
    returns (distinct: bool, ids': map<Name, nat>, idSet': set<nat>, next': nat)
    requires n < |file| && HasRead(file, n, ids, idSet, next)
    ensures if distinct then HasRead(file, n + 1, ids', idSet', next') else !IdsDistinct(file)
  {
    var e := file[n];
    distinct, ids', idSet', next' := e.id !in idSet, ids[e.name := e.id], idSet + {e.id}, next;
    if idSet == {} || next < e.id + 1 {
      next' := e.id + 1;
    }
    IdComesTwice(file, n);
    IdsOfOneMore(file, n);
    NextOfOneMore(next, idSet, e.id);
    if !distinct {
      DistinctPrefix(file, n + 1);
    }
  }

  /**
    get_apiids_per_category: the dictionary and the next free id; None is the assertion
    on duplicated ids.
   */
  method ReadApiIds(file: seq<Entry>) returns (r: Option<(map<Name, nat>, nat)>)
    ensures r.Some? <==> IdsDistinct(file)
    ensures r.Some? ==> r.value.0 == Entries(file) && NextOf(r.value.1, IdsOf(file))
  {
    var ids: map<Name, nat>, idSet: set<nat>, next: nat := map[], {}, 1;
    for n := 0 to |file|
      invariant HasRead(file, n, ids, idSet, next)
    {
      var distinct;
      distinct, ids, idSet, next := ReadEntry(file, n, ids, idSet, next);
      if !distinct {
        return None;
      }
    }
    assert file[..|file|] == file;
    r := Some((ids, next));
  }
}
