/** What an import does to the recent recipients (nftopia-mobile-app/stores/addressBookStore.ts). */
module AddressBookRecents {
  import opened Common
  import opened AddressBook

  /** How many of the imported recents are kept, and how many of the old ones behind them. */
  function KeptNew(imported: seq<Recent>): nat {
    if |imported| > MAX_RECENT then MAX_RECENT else |imported|
  }

  function KeptOld(imported: seq<Recent>, known: seq<Recent>): nat {
    if KeptNew(imported) + |known| > MAX_RECENT then MAX_RECENT - KeptNew(imported) else |known|
  }

  lemma TakenParts(imported: seq<Recent>, known: seq<Recent>)
    ensures TakeRecents(imported + known) == imported[..KeptNew(imported)] + known[..KeptOld(imported, known)]
  {
  }

  /**
   * An import puts its recents in front of the old ones and never looks for the same address: in a
   * book whose recents differ they still do exactly when the kept imported ones differ from each
   * other and from the kept old ones.
   */
  lemma ImportedRecentsDifferIff(imported: seq<Recent>, known: seq<Recent>)
    requires DistinctRecents(known)
    ensures DistinctRecents(TakeRecents(imported + known))
       <==> && DistinctRecents(imported[..KeptNew(imported)])
            && forall i, j :: 0 <= i < KeptNew(imported) && 0 <= j < KeptOld(imported, known) ==> imported[i].address != known[j].address
  {
    var n, k := KeptNew(imported), KeptOld(imported, known);
    var all := imported[..n] + known[..k];
    TakenParts(imported, known);
    assert forall i :: 0 <= i < n ==> all[i] == imported[i];
    assert forall j :: 0 <= j < k ==> all[n + j] == known[j];
    if DistinctRecents(all) {
      forall i, j | 0 <= i < n && 0 <= j < k ensures imported[i].address != known[j].address {
        assert all[i].address != all[n + j].address;
      }
      forall i, j | 0 <= i < j < n ensures imported[..n][i].address != imported[..n][j].address {
        assert all[i].address != all[j].address;
      }
    }
    if DistinctRecents(imported[..n]) && forall i, j :: 0 <= i < n && 0 <= j < k ==> imported[i].address != known[j].address {
      forall i, j | 0 <= i < j < |all| ensures all[i].address != all[j].address {
        if j < n {
          assert imported[..n][i].address != imported[..n][j].address;
        } else if i < n {
          assert imported[i].address != known[j - n].address;
        } else {
          assert known[i - n].address != known[j - n].address;
        }
      }
    }
  }

  lemma {:induction false} EntriesReadable(valid: KeyCheck, items: seq<Json>, i: nat, known: set<string>, taken: seq<Entry>, freshId: nat -> Json, now: Json)
    requires i <= |items| && forall item :: item in items ==> !item.JNull? && MemoReadable(item)
    ensures Collect(valid, items, i, known, taken, freshId, now).Ok?
    decreases |items| - i
  {
    if i < |items| {
      var item := items[i];
      if Acceptable(valid, item) {
        var address := Prop(item, AddressName).value.s;
        EntriesReadable(valid, items, i + 1, known + {address}, taken + [MakeEntry(item, freshId(|taken|), now)], freshId, now);
      }
      EntriesReadable(valid, items, i + 1, known, taken, freshId, now);
    }
  }

  /** The recents of a readable file that pass the key check. */
  function ImportedRecents(valid: KeyCheck, parsed: Json, now: Json): seq<Recent>
    requires Readable(parsed)
  {
    RecentsReadable(valid, Incoming(parsed).value.1, 0, [], now);
    CollectRecents(valid, Incoming(parsed).value.1, 0, [], now).value
  }

  lemma ImportReadable(valid: KeyCheck, b: Book, parsed: Json, freshId: nat -> Json, now: Json)
    requires Readable(parsed)
    ensures var r, recents := Import(valid, b, Some(parsed), freshId, now), ImportedRecents(valid, parsed, now);
            && (recents != [] ==> r.Ok?)
            && (r.Ok? ==> r.value.recents == if recents != [] then TakeRecents(recents + b.recents) else b.recents)
  {
    EntriesReadable(valid, Incoming(parsed).value.0, 0, AddressesOf(b.entries), [], freshId, now);
    RecentsReadable(valid, Incoming(parsed).value.1, 0, [], now);
  }

  ghost predicate KeepsRecentsDistinct(valid: KeyCheck, parsed: Json, freshId: nat -> Json, now: Json) {
    forall b: Book :: DistinctRecents(b.recents) && Import(valid, b, Some(parsed), freshId, now).Ok? ==>
      DistinctRecents(Import(valid, b, Some(parsed), freshId, now).value.recents)
  }

  /** The book that already has the first imported recipient, or the empty one if the file repeats a recipient itself. */
  lemma RecentsRepeat(valid: KeyCheck, parsed: Json, freshId: nat -> Json, now: Json) returns (b: Book)
    requires Readable(parsed)
    requires var r := ImportedRecents(valid, parsed, now); r != [] && (|r| < MAX_RECENT || !DistinctRecents(r[..MAX_RECENT]))
    ensures DistinctRecents(b.recents) && Import(valid, b, Some(parsed), freshId, now).Ok?
    ensures !DistinctRecents(Import(valid, b, Some(parsed), freshId, now).value.recents)
  {
    var r := ImportedRecents(valid, parsed, now);
    b := if DistinctRecents(r[..KeptNew(r)]) then Book([], [r[0]]) else EMPTY;
    ImportReadable(valid, b, parsed, freshId, now);
    ImportedRecentsDifferIff(r, b.recents);
    if b.recents != [] {
      assert |r| < MAX_RECENT && KeptOld(r, b.recents) == 1 && KeptNew(r) > 0;
      assert r[0].address == b.recents[0].address;
    }
  }

  /**
   * A readable file can be imported into every book with different recents without repeating one
   * exactly when it brings no recents, or so many different ones that nothing old is kept.
   */
  lemma ImportKeepsRecentsDistinctIff(valid: KeyCheck, parsed: Json, freshId: nat -> Json, now: Json)
    requires Readable(parsed)
    ensures var r := ImportedRecents(valid, parsed, now);
            KeepsRecentsDistinct(valid, parsed, freshId, now) <==> r == [] || (|r| >= MAX_RECENT && DistinctRecents(r[..MAX_RECENT]))
  {
    var r := ImportedRecents(valid, parsed, now);
    if r == [] || (|r| >= MAX_RECENT && DistinctRecents(r[..MAX_RECENT])) {
      forall b: Book | DistinctRecents(b.recents) && Import(valid, b, Some(parsed), freshId, now).Ok?
        ensures DistinctRecents(Import(valid, b, Some(parsed), freshId, now).value.recents)
      {
        ImportReadable(valid, b, parsed, freshId, now);
        ImportedRecentsDifferIff(r, b.recents);
      }
    } else {
      var b := RecentsRepeat(valid, parsed, freshId, now);
    }
  }
}
