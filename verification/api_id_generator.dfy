/**
  The generator's loops: the inverse of the existing ids, the insertion into the
  sorted list, and the walk over the names that the library has now.
 */
module ApiIdGenerator {
  import opened ViewRecordInfo
  import opened ApiIds

  /** reverse_bi_dict: the inverse of a map; None is the error on a value that comes twice. */
  method ReverseBiDict<K(==), V(==)>(dict: map<K, V>) returns (r: Option<map<V, K>>)
    ensures r.Some? <==> forall a, b :: a in dict && b in dict && dict[a] == dict[b] ==> a == b
    ensures r.Some? ==> forall key :: key in dict ==> dict[key] in r.value && r.value[dict[key]] == key
    ensures r.Some? ==> forall value :: value in r.value ==> r.value[value] in dict && dict[r.value[value]] == value
  {
    var reversed: map<V, K> := map[];
    var rest := dict.Keys;
    while rest != {}
      invariant rest <= dict.Keys
      invariant forall key :: key in dict && key !in rest ==> dict[key] in reversed && reversed[dict[key]] == key
      invariant forall value :: value in reversed ==>
                  reversed[value] in dict && reversed[value] !in rest && dict[reversed[value]] == value
      decreases rest
    {
      var key :| key in rest;
      if dict[key] in reversed {
        return None;
      }
      reversed := reversed[dict[key] := key];
      rest := rest - {key};
    }
    r := Some(reversed);
  }

  /** bisect.insort: the entry goes where a binary search by id finds its place. */
  method Insort(list: seq<Entry>, e: Entry) returns (list': seq<Entry>)
    requires Sorted(list) && forall i :: 0 <= i < |list| ==> list[i].id != e.id
    ensures Sorted(list') && forall x :: x in list' <==> x == e || x in list
  {
    var lo, hi := 0, |list|;
    while lo < hi
      invariant 0 <= lo <= hi <= |list|
      invariant forall i :: 0 <= i < lo ==> list[i].id < e.id
      invariant forall i :: hi <= i < |list| ==> e.id < list[i].id
    {
      var mid := (lo + hi) / 2;
      if e.id < list[mid].id {
        hi := mid;
      } else {
        lo := mid + 1;
      }
    }
    InsertedIsSorted(list, e, lo);
    list' := list[..lo] + [e] + list[lo..];
  }

  /** A listed entry and a new one make a longer list. */
  method Include(list: seq<Entry>, ghost ids: map<Name, nat>, name: Name, id: nat) returns (list': seq<Entry>)
    requires Lists(list, ids) && name !in ids && forall other :: other in ids ==> ids[other] != id
    ensures Lists(list', ids[name := id])
  {
    var e := Entry(name, id);
    list' := list;
    assert forall i :: 0 <= i < |list| ==> list[i] in list;
    if e !in list' {
      list' := Insort(list, e);
      InsertedLists(list, ids, e, list');
    }
  }

  lemma ValuesOfOneMore(given: map<Name, nat>, name: Name, id: nat)
    requires name !in given
    ensures given[name := id].Values == given.Values + {id}
  {
    var more := given[name := id];
    assert more[name] == id;
    forall v | v in given.Values ensures v in more.Values {
      var n :| n in given && given[n] == v;
      assert more[n] == v;
    }
  }

  /** The id that the walk gives to the name at position `i`. */
  function IdAt(ids: map<Name, nat>, next: nat, names: seq<Name>, i: nat): nat
    requires i < |names|
  {
    if names[i] in ids then ids[names[i]] else next + NewNames(ids, names[..i])
  }

  lemma OneMoreName(ids: map<Name, nat>, next: nat, names: seq<Name>, i: nat)
    requires i < |names|
    ensures Assigned(ids, next, names[..i + 1])
            == Assigned(ids, next, names[..i])[names[i] := IdAt(ids, next, names, i)]
    ensures NewNames(ids, names[..i + 1]) == NewNames(ids, names[..i]) + (if names[i] in ids then 0 else 1)
  {
    assert names[..i + 1][..i] == names[..i];
  }

  /** The name at position `i` has no id yet, and the one it gets is not taken. */
  lemma IdIsFree(ids: map<Name, nat>, next: nat, names: seq<Name>, i: nat)
    requires IsNumbering(ids) && Above(next, ids) && Distinct(names) && i < |names|
    ensures var given := Assigned(ids, next, names[..i]);
            && names[i] !in given
            && (forall name :: name in given ==> given[name] < next + NewNames(ids, names[..i]))
            && (forall name :: name in given ==> given[name] != IdAt(ids, next, names, i))
            && IdAt(ids, next, names, i) > 0
  {
    AssignedIs(ids, next, names[..i]);
    assert forall name :: name in names[..i] ==> name != names[i];
  }

  /** The state of the walk before position `i`. */
  ghost predicate Walking(ids: map<Name, nat>, next: nat, names: seq<Name>, i: nat, existing: map<Name, nat>,
                          nextId: nat, idSet: set<nat>, given: map<Name, nat>)
  {
    && i <= |names|
    && given == Assigned(ids, next, names[..i])
    && existing == ids - given.Keys
    && nextId == next + NewNames(ids, names[..i])
    && idSet == given.Values && |idSet| == i
  }

  lemma WalkMeets(ids: map<Name, nat>, next: nat, names: seq<Name>, i: nat, existing: map<Name, nat>, nextId: nat,
                  idSet: set<nat>, given: map<Name, nat>)
    requires IsNumbering(ids) && Above(next, ids) && Distinct(names) && i < |names|
    requires Walking(ids, next, names, i, existing, nextId, idSet, given)
    ensures names[i] in existing <==> names[i] in ids
    ensures IdAt(ids, next, names, i) == if names[i] in existing then existing[names[i]] else nextId
    ensures IdAt(ids, next, names, i) > 0 && names[i] !in given
    ensures forall name :: name in given ==> given[name] != IdAt(ids, next, names, i)
    ensures !Overtaken(nextId, idSet) && (names[i] !in existing ==> existing - {names[i]} == existing)
  {
    IdIsFree(ids, next, names, i);
  }

  lemma WalkGoesOn(ids: map<Name, nat>, next: nat, names: seq<Name>, i: nat, existing: map<Name, nat>, nextId: nat,
                   idSet: set<nat>, given: map<Name, nat>)
    requires IsNumbering(ids) && Above(next, ids) && Distinct(names) && i < |names|
    requires Walking(ids, next, names, i, existing, nextId, idSet, given)
    ensures var id := IdAt(ids, next, names, i);
            Walking(ids, next, names, i + 1, existing - {names[i]}, if names[i] in ids then nextId else nextId + 1,
                    idSet + {id}, given[names[i] := id])
  {
    OneMoreName(ids, next, names, i);
    IdIsFree(ids, next, names, i);
    OneMoreGiven(ids, existing, idSet, given, names[i], IdAt(ids, next, names, i));
  }

  lemma OneMoreGiven(ids: map<Name, nat>, existing: map<Name, nat>, idSet: set<nat>, given: map<Name, nat>,
                     name: Name, id: nat)
    requires existing == ids - given.Keys && idSet == given.Values
    requires name !in given && forall other :: other in given ==> given[other] != id
    ensures existing - {name} == ids - given[name := id].Keys
    ensures idSet + {id} == given[name := id].Values && |idSet + {id}| == |idSet| + 1
  {
    ValuesOfOneMore(given, name, id);
    RemoveOneMore(ids, given, name, id);
    NotAValue(given, id);
  }

  lemma NotAValue(given: map<Name, nat>, id: nat)
    requires forall other :: other in given ==> given[other] != id
    ensures id !in given.Values && |given.Values + {id}| == |given.Values| + 1
  {
  }

  lemma RemoveOneMore(ids: map<Name, nat>, given: map<Name, nat>, name: Name, id: nat)
    ensures (ids - given.Keys) - {name} == ids - given[name := id].Keys
  {
    assert given[name := id].Keys == given.Keys + {name};
  }

  lemma MergeRest(ids: map<Name, nat>, given: map<Name, nat>)
    ensures ids + given == (ids - given.Keys) + given && (ids - given.Keys).Keys !! given.Keys
  {
  }

  /** max(id_set) */
  method Max(idSet: set<nat>) returns (max: nat)
    requires idSet != {}
    ensures max in idSet && forall id :: id in idSet ==> id <= max
  {
    max :| max in idSet;
    var rest := idSet - {max};
    while rest != {}
      invariant rest <= idSet && max in idSet
      invariant forall id :: id in idSet && id !in rest ==> id <= max
      decreases rest
    {
      var id :| id in rest;
      if max < id {
        max := id;
      }
      rest := rest - {id};
    }
  }

  /** An id that was written is larger than the next one. */
  predicate Overtaken(nextId: nat, idSet: set<nat>) {
    exists id :: id in idSet && nextId < id
  }

  /**
    The id of a name that the header gives none: an old one, which leaves the existing
    ids, or the next one, or one above all ids written if the next one is below the
    largest of them. An existing id of 0 counts as none.
   */
  method NextApiId(existing: map<Name, nat>, idSet: set<nat>, nextId: nat, name: Name)
    returns (apiid: nat, existing': map<Name, nat>, nextId': nat)
    ensures if name in existing && existing[name] != 0
            then apiid == existing[name] && existing' == existing - {name} && nextId' == nextId
            else
              && existing' == existing
              && (if Overtaken(nextId, idSet)
                  then nextId' == nextId && apiid - 1 in idSet && forall id :: id in idSet ==> id < apiid
                  else apiid == nextId && nextId' == nextId + 1)
  {
    existing', nextId' := existing, nextId;
    apiid := if name in existing then existing[name] else 0;
    if apiid == 0 {
      apiid := nextId';
      if idSet != {} {
        var max := Max(idSet);
        if nextId' < max {
          apiid := max + 1;
        } else {
          nextId' := nextId' + 1;
        }
      } else {
        nextId' := nextId' + 1;
      }
    } else {
      existing' := existing' - {name};
    }
  }

  /**
    The walk over names that the header gives no ids: each new one gets the next id,
    never the one above all ids written, and the assertion on duplicated ids never fails.
   */
  method WriteNames(ids: map<Name, nat>, nextElemIndex: nat, names: seq<Name>)
    returns (list: seq<Entry>, existing: map<Name, nat>)
    requires IsNumbering(ids) && Above(nextElemIndex, ids) && Distinct(names)
    ensures Lists(list, Assigned(ids, nextElemIndex, names))
    ensures existing == ids - Assigned(ids, nextElemIndex, names).Keys
  {
    var nextId := nextElemIndex;
    var idSet: set<nat> := {};
    list, existing := [], ids;
    ghost var given: map<Name, nat> := map[];
    for i := 0 to |names|
      invariant Walking(ids, nextElemIndex, names, i, existing, nextId, idSet, given)
      invariant Lists(list, given)
    {
      WalkMeets(ids, nextElemIndex, names, i, existing, nextId, idSet, given);
      WalkGoesOn(ids, nextElemIndex, names, i, existing, nextId, idSet, given);
      var apiid;
      apiid, existing, nextId := NextApiId(existing, idSet, nextId, names[i]);
      list := Include(list, given, names[i], apiid);
      given := given[names[i] := apiid];
      idSet := idSet + {apiid};
      // The source's assertion on duplicated ids.
      assert |idSet| == i + 1;
    }
    assert names[..|names|] == names;
  }

  /** The enum that is written is exactly the numbering, in order of the ids. */
  method GenerateApiFilePortion(ids: map<Name, nat>, nextElemIndex: nat, names: seq<Name>) returns (list: seq<Entry>)
    requires IsNumbering(ids) && Above(nextElemIndex, ids) && Distinct(names)
    ensures Lists(list, Numbering(ids, nextElemIndex, names))
  {
    var existingApiIdToEnumMap := ReverseBiDict(ids);
    assert existingApiIdToEnumMap.Some?;    // no ValueError
    var existing;
    list, existing := WriteNames(ids, nextElemIndex, names);
    NumberingIsStable(ids, nextElemIndex, names);
    MergeRest(ids, Assigned(ids, nextElemIndex, names));
    list := AddRemaining(list, existing, Assigned(ids, nextElemIndex, names), Numbering(ids, nextElemIndex, names));
  }

  /**
    The loop over the ids that no listed name took. The source's test against the ids
    written compares text with numbers and so never keeps an entry out.
   */
  method AddRemaining(list: seq<Entry>, existing: map<Name, nat>, ghost given: map<Name, nat>,
                      ghost all: map<Name, nat>)
    returns (list': seq<Entry>)
    requires Lists(list, given) && IsNumbering(all)
    requires all == existing + given && existing.Keys !! given.Keys
    ensures Lists(list', all)
  {
    list' := list;
    var rest := existing.Keys;
    ghost var written := given;
    while rest != {}
      invariant rest <= existing.Keys && Lists(list', written)
      invariant written.Keys == all.Keys - rest
      invariant forall name :: name in written ==> written[name] == all[name]
      decreases rest
    {
      var func :| func in rest;
      list' := Include(list', written, func, existing[func]);
      written := written[func := existing[func]];
      rest := rest - {func};
    }
    assert written == all;
  }

  lemma OneNamePerId(file: seq<Entry>, ids: map<Name, nat>, a: Name, b: Name)
    requires Lists(file, ids) && a in ids && b in ids && ids[a] == ids[b]
    ensures a == b
  {
    assert Entry(a, ids[a]) in file && Entry(b, ids[b]) in file;
    var i :| 0 <= i < |file| && file[i] == Entry(a, ids[a]);
    var k :| 0 <= k < |file| && file[k] == Entry(b, ids[b]);
    assert i == k;
  }

  /** A sorted listing of positive ids is a numbering. */
  lemma ListedIsNumbering(file: seq<Entry>, ids: map<Name, nat>)
    requires Lists(file, ids) && (forall i :: 0 <= i < |file| ==> file[i].id > 0)
    ensures IsNumbering(ids)
  {
    forall name | name in ids ensures 0 < ids[name] {
      assert Entry(name, ids[name]) in file;
    }
    forall a, b | a in ids && b in ids && ids[a] == ids[b] ensures a == b {
      OneNamePerId(file, ids, a, b);
    }
  }

  /** What is read from a file the generator wrote is its numbering. */
  lemma ReadBack(file: seq<Entry>)
    requires NamesDistinct(file) && Sorted(file) && (forall i :: 0 <= i < |file| ==> file[i].id > 0)
    ensures Lists(file, Entries(file)) && IsNumbering(Entries(file))
  {
    EntriesAre(file);
    ListedIsNumbering(file, Entries(file));
  }

  /** The next id that is read is the one after the numbering. */
  lemma ReadNext(file: seq<Entry>, ids: map<Name, nat>, next: nat)
    requires Lists(file, ids) && NextOf(next, IdsOf(file))
    ensures IsNext(next, ids)
  {
    forall name | name in ids ensures ids[name] in IdsOf(file) {
      assert Entry(name, ids[name]) in file;
    }
    EmptyList(file, ids);
    if file != [] {
      assert file[0] in file && file[0].id in IdsOf(file);
      var e :| e in file && next - 1 == e.id;
      assert e.name in ids && ids[e.name] + 1 == next;
    }
  }

  /** What one generation makes of a file. */
  ghost predicate Successor(file: seq<Entry>, names: seq<Name>, file': seq<Entry>) {
    && Sorted(file') && NamesDistinct(file')
    && (forall e :: e in file ==> e in file')
    && (forall e :: e in file' && e !in file ==> e.name in names && forall x :: x in file ==> x.id < e.id)
    && (forall name :: name in names ==> exists e :: e in file' && e.name == name)
  }

  lemma ListedNames(file: seq<Entry>, ids: map<Name, nat>)
    requires Lists(file, ids)
    ensures NamesDistinct(file)
    ensures forall name :: name in ids <==> exists e :: e in file && e.name == name
  {
    assert forall i :: 0 <= i < |file| ==> file[i] in file;
    forall name | name in ids ensures exists e :: e in file && e.name == name {
      assert Entry(name, ids[name]) in file;
    }
  }

  lemma WrittenIsSuccessor(file: seq<Entry>, ids: map<Name, nat>, next: nat, names: seq<Name>, file': seq<Entry>)
    requires Lists(file, ids) && IsNumbering(ids) && Above(next, ids) && Distinct(names)
    requires Lists(file', Numbering(ids, next, names))
    ensures Successor(file, names, file')
  {
    NumberingIsStable(ids, next, names);
    ListedNames(file, ids);
    ListedNames(file', Numbering(ids, next, names));
  }

  lemma WrittenIsSame(file: seq<Entry>, ids: map<Name, nat>, next: nat, names: seq<Name>, file': seq<Entry>)
    requires Lists(file, ids) && Lists(file', Numbering(ids, next, names))
    requires forall name :: name in names ==> exists e :: e in file && e.name == name
    ensures file' == file
  {
    ListedNames(file, ids);
    assert forall i :: 0 <= i < |names| ==> names[i] in names;
    KnownNamesChangeNothing(ids, next, names);
    OneList(file', file, ids);
  }

  /**
    One generation: the file is read, and the new one written. No line is lost or
    changed, new names come after all old ids, and a list of known names reproduces
    the file.
   */
  method Regenerate(file: seq<Entry>, names: seq<Name>) returns (file': seq<Entry>)
    requires NamesDistinct(file) && Sorted(file) && Distinct(names)
    requires forall i :: 0 <= i < |file| ==> file[i].id > 0
    ensures Successor(file, names, file')
    ensures (forall name :: name in names ==> exists e :: e in file && e.name == name) ==> file' == file
  {
    var read := ReadApiIds(file);
    assert read.Some?;
    var (ids, next) := read.value;
    ReadBack(file);
    ReadNext(file, ids, next);
    file' := GenerateApiFilePortion(ids, next, names);
    WrittenIsSuccessor(file, ids, next, names, file');
    if forall name :: name in names ==> exists e :: e in file && e.name == name {
      WrittenIsSame(file, ids, next, names, file');
    }
  }
}
