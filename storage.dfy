/**
 * The in-memory record store: an unindexed list of records kept in insertion
 * order, with append, remove-first-by-identity, first-match lookup by
 * identifier and enumeration. `ItemStore` and `ClientRegistry` of the C#
 * program are the same code over two record types; here they are one class
 * `Store` over `Record`.
 */
module Storage {
  import opened Wrappers
  import opened Numerics
  import opened Records

  /** The error `Include` raises; `Ok` when it returns normally. */
  datatype Status = Ok | ArgumentNull

  // ---------------------------------------------------------------------
  // Specification functions over the stored sequence
  // ---------------------------------------------------------------------

  /** The first record of `s` whose identifier is `id`, or `None` (what `List.Find` gives). */
  function FindById(s: seq<Record>, id: int32): (r: Option<Record>)
    ensures r.None? <==> forall j :: 0 <= j < |s| ==> s[j].Identifier != id
    ensures r.Some? ==> r.value in s && r.value.Identifier == id
  {
    if s == [] then None
    else if s[0].Identifier == id then Some(s[0])
    else FindById(s[1..], id)
  }

  /** `s` without its first occurrence of `x` (what `List.Remove` leaves). */
  function RemoveFirst<T(==)>(s: seq<T>, x: T): (r: seq<T>)
    ensures |r| == if x in s then |s| - 1 else |s|
    ensures multiset(r) == multiset(s) - multiset{x}
  {
    if s == [] then []
    else if s[0] == x then
      assert s == [x] + s[1..];
      s[1..]
    else
      var rest := RemoveFirst(s[1..], x);
      assert s == [s[0]] + s[1..];
      assert multiset([s[0]] + rest) == multiset{s[0]} + multiset(rest);
      [s[0]] + rest
  }

  // ---------------------------------------------------------------------
  // Lemmas relating the specification functions
  // ---------------------------------------------------------------------

  /** Lookup yields the record at the first position holding identifier `id`. */
  lemma {:induction false} FindByIdIsFirst(s: seq<Record>, id: int32, i: nat)
    requires i < |s| && s[i].Identifier == id
    requires forall j :: 0 <= j < i ==> s[j].Identifier != id
    ensures FindById(s, id) == Some(s[i])
  {
    if i > 0 {
      FindByIdIsFirst(s[1..], id, i - 1);
    }
  }

  /** Appending a record never changes an existing match; it becomes the match only when there was none. */
  lemma {:induction false} FindByIdAfterAppend(s: seq<Record>, id: int32, r: Record)
    ensures FindById(s + [r], id) ==
      if FindById(s, id).Some? then FindById(s, id)
      else if r.Identifier == id then Some(r)
      else None
  {
    if s != [] {
      assert (s + [r])[1..] == s[1..] + [r];
      FindByIdAfterAppend(s[1..], id, r);
    }
  }

  /** After appending `r` to a list holding no record with `r`'s identifier, lookup finds `r`. */
  lemma IncludeThenLocate(s: seq<Record>, r: Record)
    requires FindById(s, r.Identifier) == None
    ensures FindById(s + [r], r.Identifier) == Some(r)
  {
    FindByIdAfterAppend(s, r.Identifier, r);
  }

  /** Removing a record absent from `s` leaves `s` as it is. */
  lemma {:induction false} RemoveFirstAbsent<T>(s: seq<T>, x: T)
    requires x !in s
    ensures RemoveFirst(s, x) == s
  {
    if s != [] {
      assert s == [s[0]] + s[1..];
      RemoveFirstAbsent(s[1..], x);
    }
  }

  /** Removing `x` cuts out exactly its first position and keeps the rest in order. */
  lemma {:induction false} RemoveFirstAt<T>(s: seq<T>, x: T, i: nat)
    requires i < |s| && s[i] == x && x !in s[..i]
    ensures RemoveFirst(s, x) == s[..i] + s[i + 1..]
  {
    if i > 0 {
      assert s[1..][..i - 1] == s[1..i];
      assert x !in s[1..][..i - 1];
      RemoveFirstAt(s[1..], x, i - 1);
      assert s[..i] == [s[0]] + s[1..][..i - 1];
    }
  }

  /** Removing `x` does not change the lookup of any other identifier. */
  lemma {:induction false} FindByIdAfterRemove(s: seq<Record>, id: int32, x: Record)
    requires x.Identifier != id
    ensures FindById(RemoveFirst(s, x), id) == FindById(s, id)
  {
    if s != [] && s[0] != x {
      assert ([s[0]] + RemoveFirst(s[1..], x))[1..] == RemoveFirst(s[1..], x);
      FindByIdAfterRemove(s[1..], id, x);
    }
  }

  /** After removing `x`, the only record with its identifier, lookup of that identifier finds nothing. */
  lemma ExcludeThenLocate(s: seq<Record>, x: Record, i: nat)
    requires i < |s| && s[i] == x
    requires forall j :: 0 <= j < |s| && j != i ==> s[j].Identifier != x.Identifier
    ensures FindById(RemoveFirst(s, x), x.Identifier) == None
  {
    assert x !in s[..i] by {
      forall j | 0 <= j < i ensures s[..i][j] != x {
        assert s[j].Identifier != x.Identifier;
      }
    }
    RemoveFirstAt(s, x, i);
    var rest := s[..i] + s[i + 1..];
    forall j | 0 <= j < |rest| ensures rest[j].Identifier != x.Identifier {
      if j < i { assert rest[j] == s[j]; } else { assert rest[j] == s[j + 1]; }
    }
  }

  // ---------------------------------------------------------------------
  // The store
  // ---------------------------------------------------------------------

  /**
   * A store of records. `records` is the private list the C# class mutates.
   * The ghost counters record how many `Include`s succeeded and how many
   * `Exclude`s removed something; `Valid` ties them to the list's length.
   */
  class Store {
    var records: seq<Record>
    ghost var includes: nat
    ghost var excludes: nat

    ghost predicate Valid()
      reads this
    {
      |records| + excludes == includes
    }

    constructor ()
      ensures Valid()
      ensures records == []
      ensures includes == 0 && excludes == 0
    {
      records := [];
      includes, excludes := 0, 0;
    }

    /** Appends `r`; a null record is refused with an argument-null error and nothing changes. */
    method Include(r: Option<Record>) returns (status: Status)
      requires Valid()
      modifies this
      ensures Valid()
      ensures status == ArgumentNull <==> r.None?
      ensures records == if r.Some? then old(records) + [r.value] else old(records)
      ensures includes == old(includes) + (if r.Some? then 1 else 0)
      ensures excludes == old(excludes)
    {
      if r.None? {
        return ArgumentNull;
      }
      records := records + [r.value];
      includes := includes + 1;
      status := Ok;
    }

    /** Removes the first record identical to `r`; does nothing when there is none. */
    method Exclude(r: Option<Record>)
      requires Valid()
      modifies this
      ensures Valid()
      ensures records == if r.Some? then RemoveFirst(old(records), r.value) else old(records)
      ensures includes == old(includes)
      ensures excludes == old(excludes) + (if r.Some? && r.value in old(records) then 1 else 0)
    {
      if r.None? {
        return;
      }
      var x := r.value;
      var i := 0;
      while i < |records| && records[i] != x
        invariant 0 <= i <= |records|
        invariant x !in records[..i]
      {
        i := i + 1;
      }
      if i < |records| {
        RemoveFirstAt(records, x, i);
        records := records[..i] + records[i + 1..];
        excludes := excludes + 1;
      } else {
        assert records[..i] == records;
        RemoveFirstAbsent(records, x);
      }
    }

    /** Scans the list in order and returns the first record whose identifier is `id`. */
    method LocateById(id: int32) returns (r: Option<Record>)
      ensures r == FindById(records, id)
    {
      var i := 0;
      while i < |records|
        invariant 0 <= i <= |records|
        invariant forall j :: 0 <= j < i ==> records[j].Identifier != id
      {
        if records[i].Identifier == id {
          FindByIdIsFirst(records, id, i);
          return Some(records[i]);
        }
        i := i + 1;
      }
      return None;
    }

    /** All stored records in insertion order; as many as successful includes minus effective excludes. */
    function ObtainAll(): (all: seq<Record>)
      reads this
      requires Valid()
      ensures all == records
      ensures |all| == includes - excludes
    {
      records
    }
  }

  /**
   * The sample catalog: records 1, 2 and 3 are included in that order; looking
   * up identifier 2 finds the second record and looking up 99 finds nothing.
   */
  method CatalogLookup() returns (found: Option<Record>, missing: Option<Record>)
    ensures found.Some? && found.value.Identifier == 2
    ensures missing.None?
  {
    var store := new Store();
    var friend := new Record(1);
    var liver := new Record(2);
    var job := new Record(3);
    var _ := store.Include(Some(friend));
    var _ := store.Include(Some(liver));
    var _ := store.Include(Some(job));
    found := store.LocateById(2);
    missing := store.LocateById(99);
  }
}
