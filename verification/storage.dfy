/**
 * The result collector: an append-only, insertion-ordered list of lookup
 * outcomes with a guarded indexed read, a full listing and a text report.
 */
module Storage {
  import opened Records

  /** The border line of a report block: twenty '#'. */
  const Border: string := "####################"
  const FoundPhrase: string := "нашелся"
  const NotFoundPhrase: string := "не нашелся"
  const UserPrefix: string := "Пользователь "

  // ---------------------------------------------------------------- report

  /** Python truthiness of the `link` entry: present and non-empty. */
  predicate LinkShown(link: Option<string>)
  {
    link.Some? && link.value != ""
  }

  /** The first line of a record's message: who, born when, found or not. */
  function Headline(o: Outcome): string
  {
    UserPrefix + o.username + " " + o.birthday + " " + (if o.found then FoundPhrase else NotFoundPhrase)
  }

  /** The message of one record: the headline, then the link as its own paragraph when it is shown. */
  function Message(o: Outcome): string
  {
    if LinkShown(o.link) then Headline(o) + "\n\n" + o.link.value else Headline(o)
  }

  /** The text printed for one record: bordered message followed by a blank line. */
  function Block(o: Outcome): string
  {
    Border + "\n" + Message(o) + "\n" + Border + "\n\n"
  }

  /** The blocks of a store, one per record, in store order. */
  function Blocks(store: seq<Outcome>): (r: seq<string>)
    ensures |r| == |store|
    ensures forall k :: 0 <= k < |store| ==> r[k] == Block(store[k])
  {
    seq(|store|, k requires 0 <= k < |store| => Block(store[k]))
  }

  /** Strings written one after another. */
  function Concat(parts: seq<string>): string
  {
    if parts == [] then "" else Concat(parts[..|parts| - 1]) + parts[|parts| - 1]
  }

  /** The whole printed report. */
  function Report(store: seq<Outcome>): string
  {
    Concat(Blocks(store))
  }

  lemma {:induction false} ConcatAppend(a: seq<string>, b: seq<string>)
    ensures Concat(a + b) == Concat(a) + Concat(b)
    decreases |b|
  {
    if b == [] {
      assert a + b == a;
    } else {
      var init := b[..|b| - 1];
      assert (a + b)[..|a + b| - 1] == a + init;
      ConcatAppend(a, init);
    }
  }

  /** The report of two stores one after the other is the two reports one after the other. */
  lemma ReportAppend(a: seq<Outcome>, b: seq<Outcome>)
    ensures Report(a + b) == Report(a) + Report(b)
  {
    assert Blocks(a + b) == Blocks(a) + Blocks(b);
    ConcatAppend(Blocks(a), Blocks(b));
  }

  /** Adding a record adds its block at the end of the report. */
  lemma ReportSnoc(store: seq<Outcome>, o: Outcome)
    ensures Report(store + [o]) == Report(store) + Block(o)
  {
    assert Blocks(store + [o]) == Blocks(store) + [Block(o)];
    assert Concat(Blocks(store) + [Block(o)]) == Concat(Blocks(store)) + Block(o);
  }

  /** The report of the first `k + 1` records is that of the first `k` followed by record `k`'s block. */
  lemma ReportPrefix(store: seq<Outcome>, k: int)
    requires 0 <= k < |store|
    ensures Report(store[..k + 1]) == Report(store[..k]) + Block(store[k])
  {
    assert store[..k + 1] == store[..k] + [store[k]];
    ReportSnoc(store[..k], store[k]);
  }

  /** Record `k`'s block stands in the report right after the blocks of the records before it. */
  lemma ReportBlocks(store: seq<Outcome>, k: int)
    requires 0 <= k < |store|
    ensures Report(store) == Report(store[..k]) + Block(store[k]) + Report(store[k + 1..])
  {
    assert store == store[..k] + [store[k]] + store[k + 1..];
    ReportAppend(store[..k] + [store[k]], store[k + 1..]);
    ReportSnoc(store[..k], store[k]);
  }

  /** The link is printed, as the block's last paragraph, exactly when it is present and non-empty. */
  lemma MessageLink(o: Outcome)
    ensures LinkShown(o.link) ==> Message(o) == Headline(o) + "\n\n" + o.link.value
    ensures !LinkShown(o.link) ==> Message(o) == Headline(o)
    ensures !LinkShown(o.link) ==> Block(o) == Border + "\n" + Headline(o) + "\n" + Border + "\n\n"
    ensures LinkShown(o.link) ==>
      Block(o) == Border + "\n" + Headline(o) + "\n\n" + o.link.value + "\n" + Border + "\n\n"
  {
  }

  /** A found record with a link: headline with the found phrase, then the link on its own paragraph, between borders. */
  lemma FoundBlockExample()
    ensures Block(Outcome(true, "X", "Y", Some("L"))) ==
      Border + "\n" + "Пользователь X Y нашелся" + "\n\n" + "L" + "\n" + Border + "\n\n"
  {
    assert Headline(Outcome(true, "X", "Y", Some("L"))) == "Пользователь X Y нашелся";
  }

  // ---------------------------------------------------------------- indexed read

  /**
   * `get_by_index` as written: an item comes back only when the `_index`
   * marker is positive and the index is below `len - 1`.
   */
  function GuardedLookup(marker: int, store: seq<Outcome>, i: int): (r: Option<Outcome>)
    ensures r.Some? ==> 0 <= i < |store| && r.value == store[i]
    ensures r.Some? <==> marker > 0 && 0 <= i < |store| - 1
  {
    if marker > 0 && 0 <= i < |store| - 1 then Some(store[i]) else None
  }

  /** With the marker at its only value, 0, nothing ever comes back. */
  lemma LookupMissesEveryIndex(store: seq<Outcome>, i: int)
    ensures GuardedLookup(0, store, i) == None
  {
  }

  /** Whatever the marker, index `len - 1` is rejected. */
  lemma LookupMissesLastIndex(marker: int, store: seq<Outcome>)
    requires store != []
    ensures GuardedLookup(marker, store, |store| - 1) == None
  {
  }

  /** A one-record store and index 0: the record is there but is not returned. */
  lemma LookupMissesStoredRecord(o: Outcome)
    ensures 0 < |[o]| && GuardedLookup(0, [o], 0) == None
  {
  }

  /** The read the guard evidently intends: the item whenever the index is in bounds. */
  function ItemAt(store: seq<Outcome>, i: int): (r: Option<Outcome>)
    ensures r.Some? <==> 0 <= i < |store|
    ensures r.Some? ==> r.value == store[i]
  {
    if 0 <= i < |store| then Some(store[i]) else None
  }

  /** The corrected read returns every stored record, the last one included, and agrees with the guard wherever the guard lets an item through. */
  lemma ItemAtReturnsEveryRecord(marker: int, store: seq<Outcome>, i: int)
    requires 0 <= i < |store|
    ensures ItemAt(store, i) == Some(store[i])
    ensures GuardedLookup(marker, store, i).Some? ==> GuardedLookup(marker, store, i) == ItemAt(store, i)
  {
  }

  // ---------------------------------------------------------------- the collector

  class Storage {
    /** The outcomes in the order they were added. */
    var store: seq<Outcome>
    /** The marker that gates `get_by_index`; it is set once and never reassigned. */
    var index: int

    /** Every reachable collector has its marker at 0. */
    ghost predicate Valid()
      reads this
    {
      index == 0
    }

    constructor ()
      ensures Valid()
      ensures store == []
    {
      store := [];
      index := 0;
    }

    /** Appends, with no deduplication and no validation; the marker is not touched. */
    method Add(data: Outcome)
      modifies this`store
      ensures store == old(store) + [data]
      ensures |store| == |old(store)| + 1 && store[|store| - 1] == data
      ensures forall k :: 0 <= k < |old(store)| ==> store[k] == old(store)[k]
    {
      store := store + [data];
    }

    /** The indexed read: on every reachable collector it returns nothing. */
    method GetByIndex(i: int) returns (r: Option<Outcome>)
      ensures r == GuardedLookup(index, store, i)
      ensures Valid() ==> r == None
    {
      r := GuardedLookup(index, store, i);
    }

    /** The full listing, in insertion order. */
    method GetAll() returns (all: seq<Outcome>)
      ensures all == store
    {
      all := store;
    }

    /** Builds the report block by block, in store order. */
    method PrintItems() returns (out: string)
      ensures out == Report(store)
    {
      out := "";
      for k := 0 to |store|
        invariant out == Report(store[..k])
      {
        ReportPrefix(store, k);
        out := out + Block(store[k]);
      }
      assert store[..|store|] == store;
    }
  }

  /**
   * Order law: adding records one by one to a fresh collector and listing it
   * gives them back in the order added, while the indexed read of the first
   * record returns nothing.
   */
  method AddThenGetAll(outcomes: seq<Outcome>) returns (all: seq<Outcome>, first: Option<Outcome>)
    ensures all == outcomes
    ensures first == None
  {
    var s := new Storage();
    for k := 0 to |outcomes|
      invariant s.store == outcomes[..k]
      invariant s.Valid()
    {
      assert outcomes[..k + 1] == outcomes[..k] + [outcomes[k]];
      s.Add(outcomes[k]);
    }
    assert outcomes[..|outcomes|] == outcomes;
    all := s.GetAll();
    first := s.GetByIndex(0);
  }

  /** No deduplication: the same record added twice is stored twice. */
  method DuplicateKept(o: Outcome) returns (all: seq<Outcome>)
    ensures |all| == 2 && all[0] == o && all[1] == o
  {
    var s := new Storage();
    s.Add(o);
    s.Add(o);
    all := s.GetAll();
  }
}
