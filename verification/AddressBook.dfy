/**
 * The address book: editing, recent recipients, and moving a book between devices as JSON
 * (nftopia-mobile-app/stores/addressBookStore.ts).
 */
module AddressBook {
  import opened Common
  import opened Strings

  // ----- JSON -----

  /** The property names the store reads and writes, and all others. */
  datatype Name =
    | IdName | LabelName | AddressName | MemoName | CreatedAtName | UpdatedAtName | LastSentAtName | CountName
    | EntriesName | RecentRecipientsName | ExportedAtName | VersionName | OtherName(text: string)

  datatype Json = JNull | JBool(b: bool) | JNum(n: int) | JStr(s: string) | JArr(items: seq<Json>) | JObj(fields: map<Name, Json>)

  predicate Falsy(j: Json) {
    j.JNull? || (j.JBool? && !j.b) || (j.JNum? && j.n == 0) || (j.JStr? && j.s == "")
  }

  /** A property of a value; a missing one reads as `undefined`, and reading one of `null` throws. */
  function Prop(j: Json, name: Name): Option<Json>
    requires !j.JNull?
  {
    if j.JObj? && name in j.fields then Some(j.fields[name]) else None
  }

  function OrElse(j: Option<Json>, default: Json): Json {
    if j.Some? && !Falsy(j.value) then j.value else default
  }

  // ----- Entries -----

  /** `title` is the contact's label. Imported ids and dates are kept as they come. */
  datatype Entry = Entry(id: Json, title: string, address: string, memo: Option<string>, createdAt: Json, updatedAt: Json)

  datatype Recent = Recent(address: string, lastSentAt: Json, count: int)

  datatype Book = Book(entries: seq<Entry>, recents: seq<Recent>)

  const EMPTY := Book([], [])
  const MAX_RECENT := 20

  /** The key check of the Stellar library, on a trimmed address. */
  type KeyCheck = string -> bool

  predicate ValidAddress(valid: KeyCheck, address: string) {
    address != "" && valid(Trim(address))
  }

  function ValidateLabel(title: string): Option<string> {
    if Trim(title) == "" then Some("Label is required")
    else if |Trim(title)| > 50 then Some("Label must be 50 characters or less")
    else None
  }

  function NonEmpty(s: string): Option<string> {
    if s == "" then None else Some(s)
  }

  ghost predicate DistinctAddresses(entries: seq<Entry>) {
    forall i, j :: 0 <= i < j < |entries| ==> entries[i].address != entries[j].address
  }

  ghost predicate DistinctIds(entries: seq<Entry>) {
    forall i, j :: 0 <= i < j < |entries| ==> entries[i].id != entries[j].id
  }

  ghost predicate ValidAddresses(valid: KeyCheck, entries: seq<Entry>) {
    forall i :: 0 <= i < |entries| ==> entries[i].address == Trim(entries[i].address) && ValidAddress(valid, entries[i].address)
  }

  /** What every operation keeps: saved addresses are trimmed, valid and different. */
  ghost predicate Sound(valid: KeyCheck, b: Book) {
    DistinctAddresses(b.entries) && ValidAddresses(valid, b.entries)
  }

  // ----- Editing -----

  predicate Saved(entries: seq<Entry>, address: string) {
    exists i :: 0 <= i < |entries| && entries[i].address == address
  }

  function FindId(entries: seq<Entry>, id: Json): Option<Entry> {
    if entries == [] then None else if entries[0].id == id then Some(entries[0]) else FindId(entries[1..], id)
  }

  function Add(valid: KeyCheck, b: Book, title: string, address: string, memo: Option<string>, id: Json, now: Json): Result<Book, string> {
    var title', address' := Trim(title), Trim(address);
    if ValidateLabel(title').Some? then Err(ValidateLabel(title').value)
    else if address' == "" then Err("Address is required")
    else if !ValidAddress(valid, address') then Err("Invalid Stellar address")
    else if Saved(b.entries, address') then Err("This address is already saved")
    else Ok(b.(entries := b.entries + [Entry(id, title', address', if memo.Some? then NonEmpty(Trim(memo.value)) else None, now, now)]))
  }

  function ReplaceId(entries: seq<Entry>, id: Json, updated: Entry): (r: seq<Entry>)
    ensures |r| == |entries|
    ensures forall i :: 0 <= i < |r| ==> r[i] == (if entries[i].id == id then updated else entries[i])
  {
    seq(|entries|, i requires 0 <= i < |entries| => if entries[i].id == id then updated else entries[i])
  }

  /** The address is saved under a different id. */
  predicate TakenByOther(entries: seq<Entry>, address: string, id: Json) {
    exists i :: 0 <= i < |entries| && entries[i].address == address && entries[i].id != id
  }

  function Update(valid: KeyCheck, b: Book, id: Json, title: Option<string>, address: Option<string>, memo: Option<string>, now: Json): Result<Book, string> {
    var existing := FindId(b.entries, id);
    if existing.None? then Err("Contact not found")
    else
      var title' := if title.Some? then Trim(title.value) else existing.value.title;
      var address' := if address.Some? then Trim(address.value) else existing.value.address;
      var memo' := if memo.Some? then NonEmpty(Trim(memo.value)) else existing.value.memo;
      if ValidateLabel(title').Some? then Err(ValidateLabel(title').value)
      else if address' == "" then Err("Address is required")
      else if !ValidAddress(valid, address') then Err("Invalid Stellar address")
      else if TakenByOther(b.entries, address', id) then Err("This address is already saved")
      else Ok(b.(entries := ReplaceId(b.entries, id, existing.value.(title := title', address := address', memo := memo', updatedAt := now))))
  }

  function WithoutId(entries: seq<Entry>, id: Json): seq<Entry> {
    if entries == [] then []
    else (if entries[0].id == id then [] else [entries[0]]) + WithoutId(entries[1..], id)
  }

  function Remove(b: Book, id: Json): Result<Book, string> {
    if FindId(b.entries, id).None? then Err("Contact not found") else Ok(b.(entries := WithoutId(b.entries, id)))
  }

  lemma {:induction false} TrimTwice(s: string)
    ensures Trim(Trim(s)) == Trim(s)
    decreases |s|
  {
    TrimRightStops(TrimLeft(s));
    TrimLeftStops(s);
    var left, t := TrimLeft(s), Trim(s);
    if t != "" {
      assert t[0] == left[0];
    }
  }

  lemma {:induction false} TrimLeftStops(s: string)
    ensures var t := TrimLeft(s); t != "" ==> !IsSpace(t[0])
    decreases |s|
  {
    if s != "" && IsSpace(s[0]) {
      TrimLeftStops(s[1..]);
    }
  }

  lemma {:induction false} TrimRightStops(s: string)
    ensures var t := TrimRight(s); |t| <= |s| && t == s[..|t|] && (t != "" ==> !IsSpace(t[|t| - 1]))
    decreases |s|
  {
    if s != "" && IsSpace(s[|s| - 1]) {
      TrimRightStops(s[..|s| - 1]);
    }
  }

  /** What is saved, or which check failed first. */
  lemma AddOutcome(valid: KeyCheck, b: Book, title: string, address: string, memo: Option<string>, id: Json, now: Json)
    ensures var error := FirstFailure(valid, Trim(title), Trim(address));
            match Add(valid, b, title, address, memo, id, now)
            case Ok(b') =>
              && error.None? && (forall i :: 0 <= i < |b.entries| ==> b.entries[i].address != Trim(address))
              && |b'.entries| == |b.entries| + 1 && b.entries <= b'.entries && b'.recents == b.recents
              && var e := b'.entries[|b.entries|];
                 && e.id == id && e.title == Trim(title) && e.address == Trim(address) && e.createdAt == now && e.updatedAt == now
                 && e.memo == CleanMemo(memo)
            case Err(e) =>
              if error.Some? then e == error.value
              else e == "This address is already saved" && exists i :: 0 <= i < |b.entries| && b.entries[i].address == Trim(address)
  {
    TrimTwice(title);
    TrimTwice(address);
  }

  /** The first of the checks that a trimmed label and address fail. */
  function FirstFailure(valid: KeyCheck, title: string, address: string): Option<string> {
    if title == "" then Some("Label is required")
    else if |title| >= 51 then Some("Label must be 50 characters or less")
    else if address == "" then Some("Address is required")
    else if !valid(address) then Some("Invalid Stellar address")
    else None
  }

  /** A memo is kept trimmed; a blank one is none. */
  function CleanMemo(memo: Option<string>): Option<string> {
    match memo
    case Some(text) => if Trim(text) == "" then None else Some(Trim(text))
    case None => None
  }

  lemma AddKeepsSound(valid: KeyCheck, b: Book, title: string, address: string, memo: Option<string>, id: Json, now: Json)
    requires Sound(valid, b) && Add(valid, b, title, address, memo, id, now).Ok?
    ensures Sound(valid, Add(valid, b, title, address, memo, id, now).value)
  {
    TrimTwice(address);
  }

  lemma {:induction false} FoundIsThere(entries: seq<Entry>, id: Json) returns (i: nat)
    requires FindId(entries, id).Some?
    ensures i < |entries| && entries[i] == FindId(entries, id).value && entries[i].id == id
    decreases |entries|
  {
    if entries[0].id == id {
      i := 0;
    } else {
      var j := FoundIsThere(entries[1..], id);
      i := j + 1;
    }
  }

  lemma {:induction false} NotFoundIff(entries: seq<Entry>, id: Json)
    ensures FindId(entries, id).None? <==> forall i :: 0 <= i < |entries| ==> entries[i].id != id
    decreases |entries|
  {
    if entries != [] {
      NotFoundIff(entries[1..], id);
      assert forall i :: 0 < i < |entries| ==> entries[i] == entries[1..][i - 1];
    }
  }

  /** Exactly one entry carries the id. */
  ghost predicate UniqueId(entries: seq<Entry>, id: Json) {
    forall i, j :: 0 <= i < j < |entries| ==> !(entries[i].id == id && entries[j].id == id)
  }

  lemma FindUnique(entries: seq<Entry>, at: nat)
    requires at < |entries| && UniqueId(entries, entries[at].id)
    ensures FindId(entries, entries[at].id) == Some(entries[at])
  {
    NotFoundIff(entries, entries[at].id);
    var i := FoundIsThere(entries, entries[at].id);
  }

  /** The entry with the given fields changed. */
  function Changed(e: Entry, title: Option<string>, address: Option<string>, memo: Option<string>, now: Json): Entry {
    Entry(e.id, if title.Some? then Trim(title.value) else e.title, if address.Some? then Trim(address.value) else e.address,
          if memo.Some? then CleanMemo(memo) else e.memo, e.createdAt, now)
  }

  /**
   * An update of an entry with a unique id changes, in place, only its given fields and the date of the
   * change, or reports the first check that fails; an address may stay its own but be no other's.
   */
  lemma UpdateOutcome(valid: KeyCheck, b: Book, at: nat, title: Option<string>, address: Option<string>, memo: Option<string>, now: Json)
    requires ValidAddresses(valid, b.entries) && at < |b.entries| && UniqueId(b.entries, b.entries[at].id)
    ensures var e := Changed(b.entries[at], title, address, memo, now);
            var error := FirstFailure(valid, Trim(e.title), e.address);
            Update(valid, b, b.entries[at].id, title, address, memo, now)
            == (if error.Some? then Err(error.value)
                else if exists i :: 0 <= i < |b.entries| && i != at && b.entries[i].address == e.address then Err("This address is already saved")
                else Ok(Book(b.entries[at := e], b.recents)))
  {
    var entries, e := b.entries, Changed(b.entries[at], title, address, memo, now);
    FindUnique(entries, at);
    AddressTrimmed(valid, entries[at], address);
    UniqueTaken(entries, at, e.address);
    assert ReplaceId(entries, entries[at].id, e) == entries[at := e];
  }

  lemma AddressTrimmed(valid: KeyCheck, e: Entry, address: Option<string>)
    requires e.address == Trim(e.address)
    ensures var address' := if address.Some? then Trim(address.value) else e.address; Trim(address') == address'
  {
    if address.Some? {
      TrimTwice(address.value);
    }
  }

  lemma UniqueTaken(entries: seq<Entry>, at: nat, address: string)
    requires at < |entries| && UniqueId(entries, entries[at].id)
    ensures TakenByOther(entries, address, entries[at].id) <==> exists i :: 0 <= i < |entries| && i != at && entries[i].address == address
  {
  }

  /** Without an entry with the id nothing is updated. */
  lemma UpdateFindsIff(valid: KeyCheck, b: Book, id: Json, title: Option<string>, address: Option<string>, memo: Option<string>, now: Json)
    ensures Update(valid, b, id, title, address, memo, now) == Err("Contact not found") <==> forall i :: 0 <= i < |b.entries| ==> b.entries[i].id != id
  {
    NotFoundIff(b.entries, id);
  }

  /**
   * An update keeps the book sound exactly when no two entries share the id: it writes the same
   * address into every entry with that id.
   */
  lemma UpdateKeepsSoundIff(valid: KeyCheck, b: Book, id: Json, title: Option<string>, address: Option<string>, memo: Option<string>, now: Json)
    requires Sound(valid, b) && Update(valid, b, id, title, address, memo, now).Ok?
    ensures Sound(valid, Update(valid, b, id, title, address, memo, now).value) <==> UniqueId(b.entries, id)
  {
    var at := FoundIsThere(b.entries, id);
    if address.Some? {
      TrimTwice(address.value);
    }
    var updated := Update(valid, b, id, title, address, memo, now).value.entries[at];
    ReplaceKeepsSoundIff(valid, b.entries, id, at, updated);
  }

  lemma ReplaceKeepsSoundIff(valid: KeyCheck, entries: seq<Entry>, id: Json, at: nat, updated: Entry)
    requires DistinctAddresses(entries) && ValidAddresses(valid, entries)
    requires at < |entries| && entries[at].id == id && !TakenByOther(entries, updated.address, id)
    requires updated.address == Trim(updated.address) && ValidAddress(valid, updated.address)
    ensures var r := ReplaceId(entries, id, updated);
            DistinctAddresses(r) && ValidAddresses(valid, r) <==> UniqueId(entries, id)
  {
    var r := ReplaceId(entries, id, updated);
    if !UniqueId(entries, id) {
      var i, j :| 0 <= i < j < |entries| && entries[i].id == id && entries[j].id == id;
      assert r[i].address == r[j].address;
    }
  }

  lemma {:induction false} WithoutIdFrom(entries: seq<Entry>, id: Json, k: nat) returns (i: nat)
    requires k < |WithoutId(entries, id)|
    ensures k <= i < |entries| && WithoutId(entries, id)[k] == entries[i] && entries[i].id != id
    decreases |entries|
  {
    var tail := WithoutId(entries[1..], id);
    if entries[0].id == id {
      assert WithoutId(entries, id) == tail;
      var j := WithoutIdFrom(entries[1..], id, k);
      i := j + 1;
    } else if k == 0 {
      i := 0;
    } else {
      assert WithoutId(entries, id)[k] == tail[k - 1];
      var j := WithoutIdFrom(entries[1..], id, k - 1);
      i := j + 1;
    }
  }

  lemma {:induction false} RemoveKeepsDistinct(entries: seq<Entry>, id: Json)
    requires DistinctAddresses(entries)
    ensures DistinctAddresses(WithoutId(entries, id))
    decreases |entries|
  {
    if entries != [] {
      RemoveKeepsDistinct(entries[1..], id);
      var tail := WithoutId(entries[1..], id);
      forall k | 0 <= k < |tail| ensures tail[k].address != entries[0].address {
        var i := WithoutIdFrom(entries[1..], id, k);
        assert tail[k] == entries[i + 1];
      }
    }
  }

  /** What removing does, entry by entry: those with the id go, and all others stay, in order. */
  lemma {:induction false} RemovesExactly(before: seq<Entry>, e: Entry, after: seq<Entry>, id: Json)
    ensures e.id == id ==> WithoutId(before + [e] + after, id) == WithoutId(before + after, id)
    ensures (forall x :: x in before + after ==> x.id != id) ==> WithoutId(before + after, id) == before + after
    decreases |before|
  {
    if before == [] {
      assert (before + [e] + after)[1..] == after && before + after == after;
      if forall x :: x in after ==> x.id != id {
        NoneRemoved(after, id);
      }
    } else {
      assert before == [before[0]] + before[1..];
      assert before + [e] + after == [before[0]] + (before[1..] + [e] + after);
      assert before + after == [before[0]] + (before[1..] + after);
      RemovesExactly(before[1..], e, after, id);
    }
  }

  lemma {:induction false} NoneRemoved(entries: seq<Entry>, id: Json)
    requires forall x :: x in entries ==> x.id != id
    ensures WithoutId(entries, id) == entries
    decreases |entries|
  {
    if entries != [] {
      NoneRemoved(entries[1..], id);
    }
  }

  /** Removing succeeds exactly for an id that is there; the entry with a unique id goes, everything else stays in order. */
  lemma RemoveOutcome(b: Book, id: Json)
    ensures Remove(b, id).Ok? <==> exists i :: 0 <= i < |b.entries| && b.entries[i].id == id
    ensures Remove(b, id).Err? ==> Remove(b, id).error == "Contact not found"
    ensures forall i :: 0 <= i < |b.entries| && b.entries[i].id == id && UniqueId(b.entries, id) ==>
              Remove(b, id) == Ok(b.(entries := b.entries[..i] + b.entries[i + 1..]))
  {
    NotFoundIff(b.entries, id);
    forall i | 0 <= i < |b.entries| && b.entries[i].id == id && UniqueId(b.entries, id)
      ensures WithoutId(b.entries, id) == b.entries[..i] + b.entries[i + 1..]
    {
      var others := b.entries[..i] + b.entries[i + 1..];
      assert b.entries == b.entries[..i] + [b.entries[i]] + b.entries[i + 1..];
      RemovesExactly(b.entries[..i], b.entries[i], b.entries[i + 1..], id);
    }
  }

  lemma RemoveKeepsSound(valid: KeyCheck, b: Book, id: Json)
    requires Sound(valid, b) && Remove(b, id).Ok?
    ensures Sound(valid, Remove(b, id).value)
    ensures forall e :: e in Remove(b, id).value.entries ==> e in b.entries && e.id != id
  {
    RemoveKeepsDistinct(b.entries, id);
    var r := WithoutId(b.entries, id);
    forall k | 0 <= k < |r| ensures exists i :: 0 <= i < |b.entries| && r[k] == b.entries[i] && r[k].id != id {
      var i := WithoutIdFrom(b.entries, id, k);
    }
  }

  // ----- Import and export -----

  function MemoJson(memo: Option<string>): map<Name, Json> {
    if memo.Some? then map[MemoName := JStr(memo.value)] else map[]
  }

  function EntryJson(e: Entry): Json {
    JObj(map[IdName := e.id, LabelName := JStr(e.title), AddressName := JStr(e.address), CreatedAtName := e.createdAt, UpdatedAtName := e.updatedAt]
         + MemoJson(e.memo))
  }

  function RecentJson(r: Recent): Json {
    JObj(map[AddressName := JStr(r.address), LastSentAtName := r.lastSentAt, CountName := JNum(r.count)])
  }

  function EntriesJson(entries: seq<Entry>): seq<Json> {
    seq(|entries|, i requires 0 <= i < |entries| => EntryJson(entries[i]))
  }

  function RecentsJson(recents: seq<Recent>): seq<Json> {
    seq(|recents|, i requires 0 <= i < |recents| => RecentJson(recents[i]))
  }

  /** `exportedAt` is the date of the export. */
  function Export(b: Book, exportedAt: Json): Json {
    JObj(map[EntriesName := JArr(EntriesJson(b.entries)), RecentRecipientsName := JArr(RecentsJson(b.recents)),
             ExportedAtName := exportedAt, VersionName := JNum(1)])
  }

  predicate IsText(j: Option<Json>) {
    j.Some? && j.value.JStr?
  }

  /** The address and label of an item that passes the checks, before trimming. */
  predicate Acceptable(valid: KeyCheck, item: Json)
    requires !item.JNull?
  {
    && IsText(Prop(item, AddressName)) && ValidAddress(valid, Prop(item, AddressName).value.s)
    && IsText(Prop(item, LabelName)) && Trim(Prop(item, LabelName).value.s) != ""
  }

  /** `memo?.trim()` throws for a memo that is neither absent nor text. */
  predicate MemoReadable(item: Json)
    requires !item.JNull?
  {
    var memo := Prop(item, MemoName);
    memo.None? || memo.value.JNull? || memo.value.JStr?
  }

  function MakeEntry(item: Json, freshId: Json, now: Json): Entry
    requires !item.JNull? && IsText(Prop(item, AddressName)) && IsText(Prop(item, LabelName)) && MemoReadable(item)
  {
    var memo := Prop(item, MemoName);
    Entry(OrElse(Prop(item, IdName), freshId), Trim(Prop(item, LabelName).value.s), Trim(Prop(item, AddressName).value.s),
          if IsText(memo) then NonEmpty(Trim(memo.value.s)) else None,
          OrElse(Prop(item, CreatedAtName), now), OrElse(Prop(item, UpdatedAtName), now))
  }

  /** A property that is there and says something: not `null`, false, 0 or the empty text. */
  predicate Says(item: Json, name: Name, value: Json) {
    item.JObj? && name in item.fields && item.fields[name] == value && value !in {JNull, JBool(false), JNum(0), JStr("")}
  }

  lemma SaysIff(item: Json, name: Name, value: Json, default: Json)
    requires !item.JNull?
    ensures Says(item, name, value) ==> OrElse(Prop(item, name), default) == value
    ensures (forall v :: !Says(item, name, v)) ==> OrElse(Prop(item, name), default) == default
  {
    if item.JObj? && name in item.fields {
      assert Says(item, name, item.fields[name]) <==> !Falsy(item.fields[name]);
    }
  }

  /** The three properties that an import keeps if they say something, and fills in otherwise; label, address and memo are trimmed. */
  lemma ImportedEntry(item: Json, freshId: Json, now: Json, value: Json)
    requires item.JObj? && IsText(Prop(item, AddressName)) && IsText(Prop(item, LabelName)) && MemoReadable(item)
    ensures var e := MakeEntry(item, freshId, now);
            && e.title == Trim(item.fields[LabelName].s) && e.address == Trim(item.fields[AddressName].s)
            && e.memo == CleanMemo(if MemoName in item.fields && item.fields[MemoName].JStr? then Some(item.fields[MemoName].s) else None)
            && (Says(item, IdName, value) ==> e.id == value) && ((forall v :: !Says(item, IdName, v)) ==> e.id == freshId)
            && (Says(item, CreatedAtName, value) ==> e.createdAt == value) && ((forall v :: !Says(item, CreatedAtName, v)) ==> e.createdAt == now)
            && (Says(item, UpdatedAtName, value) ==> e.updatedAt == value) && ((forall v :: !Says(item, UpdatedAtName, v)) ==> e.updatedAt == now)
  {
    SaysIff(item, IdName, value, freshId);
    SaysIff(item, CreatedAtName, value, now);
    SaysIff(item, UpdatedAtName, value, now);
  }

  /** A memo stops the import unless it is missing, `null` or text. */
  lemma MemoReadableIff(item: Json)
    requires !item.JNull?
    ensures MemoReadable(item) <==>
              match Prop(item, MemoName)
              case None => true
              case Some(JNull) => true
              case Some(JStr(_)) => true
              case Some(_) => false
  {
  }

  /** An exported book has its entries and recents in order, the date, and the version of the format, and nothing else. */
  lemma ExportHolds(b: Book, exportedAt: Json)
    ensures var fields := Export(b, exportedAt).fields;
            && fields.Keys == {EntriesName, RecentRecipientsName, ExportedAtName, VersionName}
            && fields[ExportedAtName] == exportedAt && fields[VersionName] == JNum(1)
            && fields[EntriesName].JArr? && |fields[EntriesName].items| == |b.entries|
            && fields[RecentRecipientsName].JArr? && |fields[RecentRecipientsName].items| == |b.recents|
  {
  }

  /** The loop over incoming entries from item `i`: `known` are the addresses seen so far, as they were spelled. */
  function Collect(valid: KeyCheck, items: seq<Json>, i: nat, known: set<string>, taken: seq<Entry>, freshId: nat -> Json, now: Json): Result<seq<Entry>, string>
    requires i <= |items|
    decreases |items| - i
  {
    if i == |items| then Ok(taken)
    else
      var item := items[i];
      if item.JNull? then Err("TypeError")
      else if !Acceptable(valid, item) then Collect(valid, items, i + 1, known, taken, freshId, now)
      else
        var spelled := Prop(item, AddressName).value.s;
        if spelled in known || Saved(taken, spelled) then Collect(valid, items, i + 1, known, taken, freshId, now)
        else if !MemoReadable(item) then Err("TypeError")
        else Collect(valid, items, i + 1, known + {spelled}, taken + [MakeEntry(item, freshId(|taken|), now)], freshId, now)
  }

  /** The recipient an item with a valid address stands for. */
  function MakeRecent(item: Json, now: Json): Recent
    requires !item.JNull? && IsText(Prop(item, AddressName))
  {
    var count := Prop(item, CountName);
    Recent(Trim(Prop(item, AddressName).value.s), OrElse(Prop(item, LastSentAtName), now), if count.Some? && count.value.JNum? then count.value.n else 1)
  }

  /** An imported recipient keeps its count if that is a number, and else has been sent to once. */
  lemma ImportedRecent(item: Json, now: Json, value: Json)
    requires item.JObj? && IsText(Prop(item, AddressName))
    ensures var r := MakeRecent(item, now);
            && r.address == Trim(item.fields[AddressName].s)
            && r.count == (if CountName in item.fields && item.fields[CountName].JNum? then item.fields[CountName].n else 1)
            && (Says(item, LastSentAtName, value) ==> r.lastSentAt == value)
            && ((forall v :: !Says(item, LastSentAtName, v)) ==> r.lastSentAt == now)
  {
    SaysIff(item, LastSentAtName, value, now);
  }

  predicate HasValidAddress(valid: KeyCheck, item: Json)
    requires !item.JNull?
  {
    IsText(Prop(item, AddressName)) && ValidAddress(valid, Prop(item, AddressName).value.s)
  }

  function CollectRecents(valid: KeyCheck, items: seq<Json>, i: nat, taken: seq<Recent>, now: Json): Result<seq<Recent>, string>
    requires i <= |items|
    decreases |items| - i
  {
    if i == |items| then Ok(taken)
    else if items[i].JNull? then Err("TypeError")
    else CollectRecents(valid, items, i + 1, if HasValidAddress(valid, items[i]) then taken + [MakeRecent(items[i], now)] else taken, now)
  }

  /** The two lists of an import file: a bare list of entries, or an exported book. */
  function Incoming(parsed: Json): Option<(seq<Json>, seq<Json>)> {
    if parsed.JArr? then Some((parsed.items, []))
    else if parsed.JObj? && EntriesName in parsed.fields && parsed.fields[EntriesName].JArr? then
      var recents := if RecentRecipientsName in parsed.fields && parsed.fields[RecentRecipientsName].JArr?
                     then parsed.fields[RecentRecipientsName].items else [];
      Some((parsed.fields[EntriesName].items, recents))
    else None
  }

  function AddressesOf(entries: seq<Entry>): set<string> {
    set e | e in entries :: e.address
  }

  function TakeRecents(recents: seq<Recent>): seq<Recent> {
    if |recents| > MAX_RECENT then recents[..MAX_RECENT] else recents
  }

  function ImportLists(valid: KeyCheck, b: Book, items: seq<Json>, recents: seq<Json>, freshId: nat -> Json, now: Json): Result<Book, string> {
    var entries := Collect(valid, items, 0, AddressesOf(b.entries), [], freshId, now);
    if entries.Err? then Err(entries.error)
    else
      var taken := CollectRecents(valid, recents, 0, [], now);
      if taken.Err? then Err(taken.error)
      else if entries.value == [] && taken.value == [] then Err("No valid entries to import")
      else Ok(Book(b.entries + entries.value, if taken.value != [] then TakeRecents(taken.value + b.recents) else b.recents))
  }

  /** None stands for text that is not JSON. The book changes only if the import succeeds. */
  function Import(valid: KeyCheck, b: Book, parsed: Option<Json>, freshId: nat -> Json, now: Json): Result<Book, string> {
    if parsed.None? || Incoming(parsed.value).None? then Err("Invalid import format")
    else ImportLists(valid, b, Incoming(parsed.value).value.0, Incoming(parsed.value).value.1, freshId, now)
  }

  /** What a file holds: a bare list is one of entries; an object needs a list of entries and may have one of recipients; nothing else is read. */
  lemma IncomingIff(parsed: Json)
    ensures match parsed
            case JArr(items) => Incoming(parsed) == Some((items, []))
            case JObj(fields) =>
              Incoming(parsed) ==
                (if EntriesName in fields && fields[EntriesName].JArr? then
                   Some((fields[EntriesName].items,
                         if RecentRecipientsName in fields && fields[RecentRecipientsName].JArr? then fields[RecentRecipientsName].items else []))
                 else None)
            case _ => Incoming(parsed).None?
  {
  }

  /** A file that can be read but brings no entry and no recipient is refused, and any other is imported. */
  lemma ImportsSomethingIff(valid: KeyCheck, b: Book, parsed: Json, freshId: nat -> Json, now: Json, entries: seq<Entry>, recents: seq<Recent>)
    requires Incoming(parsed).Some?
    requires Collect(valid, Incoming(parsed).value.0, 0, AddressesOf(b.entries), [], freshId, now) == Ok(entries)
    requires CollectRecents(valid, Incoming(parsed).value.1, 0, [], now) == Ok(recents)
    ensures Import(valid, b, Some(parsed), freshId, now).Ok? <==> entries != [] || recents != []
    ensures Import(valid, b, Some(parsed), freshId, now).Ok? ==>
              Import(valid, b, Some(parsed), freshId, now).value.entries == b.entries + entries
  {
  }

  /** An item that would be saved, spelled with spaces around its address. */
  predicate Padded(valid: KeyCheck, item: Json) {
    !item.JNull? && Acceptable(valid, item) && Prop(item, AddressName).value.s != Trim(Prop(item, AddressName).value.s)
  }

  lemma {:induction false} CollectKeepsSound(valid: KeyCheck, b: Book, items: seq<Json>, i: nat, known: set<string>, taken: seq<Entry>, freshId: nat -> Json, now: Json)
    requires i <= |items| && Sound(valid, Book(b.entries + taken, [])) && AddressesOf(b.entries) <= known
    requires forall item :: item in items ==> !Padded(valid, item)
    requires Collect(valid, items, i, known, taken, freshId, now).Ok?
    ensures Sound(valid, Book(b.entries + Collect(valid, items, i, known, taken, freshId, now).value, []))
    decreases |items| - i
  {
    if i < |items| {
      var item := items[i];
      if Acceptable(valid, item) && Prop(item, AddressName).value.s !in known && !Saved(taken, Prop(item, AddressName).value.s) {
        var e := MakeEntry(item, freshId(|taken|), now);
        assert !Padded(valid, item);
        assert b.entries + (taken + [e]) == (b.entries + taken) + [e];
        assert forall k :: 0 <= k < |b.entries| ==> b.entries[k].address in AddressesOf(b.entries);
        CollectKeepsSound(valid, b, items, i + 1, known + {e.address}, taken + [e], freshId, now);
      } else {
        CollectKeepsSound(valid, b, items, i + 1, known, taken, freshId, now);
      }
    }
  }

  /** An import adds behind the existing entries; without padded addresses it keeps the book sound. */
  lemma ImportKeepsSound(valid: KeyCheck, b: Book, parsed: Json, freshId: nat -> Json, now: Json)
    requires Sound(valid, b) && Import(valid, b, Some(parsed), freshId, now).Ok?
    ensures b.entries <= Import(valid, b, Some(parsed), freshId, now).value.entries
    ensures (forall item :: item in Incoming(parsed).value.0 ==> !Padded(valid, item)) ==>
              Sound(valid, Import(valid, b, Some(parsed), freshId, now).value)
  {
    var items := Incoming(parsed).value.0;
    if forall item :: item in items ==> !Padded(valid, item) {
      assert b.entries + [] == b.entries;
      CollectKeepsSound(valid, b, items, 0, AddressesOf(b.entries), [], freshId, now);
    }
  }

  /** Nothing in the file makes the import throw. */
  predicate Readable(parsed: Json) {
    && Incoming(parsed).Some?
    && (forall item :: item in Incoming(parsed).value.0 ==> !item.JNull? && MemoReadable(item))
    && (forall item :: item in Incoming(parsed).value.1 ==> !item.JNull?)
  }

  lemma {:induction false} RecentsReadable(valid: KeyCheck, items: seq<Json>, i: nat, taken: seq<Recent>, now: Json)
    requires i <= |items| && forall item :: item in items ==> !item.JNull?
    ensures CollectRecents(valid, items, i, taken, now).Ok?
    decreases |items| - i
  {
    if i < |items| {
      RecentsReadable(valid, items, i + 1, if HasValidAddress(valid, items[i]) then taken + [MakeRecent(items[i], now)] else taken, now);
    }
  }

  predicate Spells(valid: KeyCheck, item: Json, spelled: string) {
    !item.JNull? && Acceptable(valid, item) && Prop(item, AddressName).value.s == spelled
  }

  lemma SavedStays(taken: seq<Entry>, e: Entry, address: string)
    requires Saved(taken, address) || e.address == address
    ensures Saved(taken + [e], address)
  {
    assert (taken + [e])[|taken|] == e;
    if Saved(taken, address) {
      var i :| 0 <= i < |taken| && taken[i].address == address;
      assert (taken + [e])[i] == taken[i];
    }
  }

  /** A padded item is saved under its trimmed address, whether or not that address is already known. */
  lemma {:induction false} PaddedIsSaved(valid: KeyCheck, items: seq<Json>, i: nat, known: set<string>, taken: seq<Entry>, freshId: nat -> Json, now: Json, spelled: string)
    requires i <= |items| && forall item :: item in items ==> !item.JNull? && MemoReadable(item)
    requires forall k :: 0 <= k < |taken| ==> taken[k].address == Trim(taken[k].address)
    requires spelled != Trim(spelled)
    requires Saved(taken, Trim(spelled)) || (spelled !in known && exists k :: i <= k < |items| && Spells(valid, items[k], spelled))
    ensures Collect(valid, items, i, known, taken, freshId, now).Ok?
    ensures Saved(Collect(valid, items, i, known, taken, freshId, now).value, Trim(spelled))
    decreases |items| - i
  {
    if i < |items| {
      var item := items[i];
      assert item in items && !Saved(taken, spelled);
      if Acceptable(valid, item) && Prop(item, AddressName).value.s !in known && !Saved(taken, Prop(item, AddressName).value.s) {
        var e, s := MakeEntry(item, freshId(|taken|), now), Prop(item, AddressName).value.s;
        TrimTwice(s);
        if s == spelled || Saved(taken, Trim(spelled)) {
          SavedStays(taken, e, Trim(spelled));
        }
        PaddedIsSaved(valid, items, i + 1, known + {s}, taken + [e], freshId, now, spelled);
      } else {
        PaddedIsSaved(valid, items, i + 1, known, taken, freshId, now, spelled);
      }
    }
  }

  lemma TwiceIsUnsound(valid: KeyCheck, e: Entry, more: seq<Entry>, recents: seq<Recent>)
    requires Saved(more, e.address)
    ensures !Sound(valid, Book([e] + more, recents))
  {
    var i :| 0 <= i < |more| && more[i].address == e.address;
    assert ([e] + more)[i + 1].address == ([e] + more)[0].address;
  }

  /** The book that already holds the trimmed form of a padded address: importing the file saves it twice. */
  lemma PaddedImportDuplicates(valid: KeyCheck, parsed: Json, freshId: nat -> Json, now: Json, item: Json) returns (b: Book)
    requires !valid("") && Readable(parsed) && item in Incoming(parsed).value.0 && Padded(valid, item)
    ensures Sound(valid, b) && Import(valid, b, Some(parsed), freshId, now).Ok?
    ensures !Sound(valid, Import(valid, b, Some(parsed), freshId, now).value)
  {
    var items, recents := Incoming(parsed).value.0, Incoming(parsed).value.1;
    var spelled := Prop(item, AddressName).value.s;
    TrimTwice(spelled);
    var e := Entry(JStr("a"), "a", Trim(spelled), None, now, now);
    b := Book([e], []);
    var k :| 0 <= k < |items| && items[k] == item;
    assert Spells(valid, items[k], spelled);
    PaddedIsSaved(valid, items, 0, AddressesOf(b.entries), [], freshId, now, spelled);
    RecentsReadable(valid, recents, 0, [], now);
    TwiceIsUnsound(valid, e, Collect(valid, items, 0, AddressesOf(b.entries), [], freshId, now).value,
                   ImportLists(valid, b, items, recents, freshId, now).value.recents);
  }

  /**
   * A readable file can be imported into any sound book without breaking it exactly when none
   * of the items it would save has spaces around its address.
   */
  lemma ImportAlwaysSoundIff(valid: KeyCheck, parsed: Json, freshId: nat -> Json, now: Json)
    requires !valid("") && Readable(parsed)
    ensures (forall b :: Sound(valid, b) && Import(valid, b, Some(parsed), freshId, now).Ok? ==> Sound(valid, Import(valid, b, Some(parsed), freshId, now).value))
       <==> (forall item :: item in Incoming(parsed).value.0 ==> !Padded(valid, item))
  {
    if item :| item in Incoming(parsed).value.0 && Padded(valid, item) {
      var b := PaddedImportDuplicates(valid, parsed, freshId, now, item);
    } else {
      forall b | Sound(valid, b) && Import(valid, b, Some(parsed), freshId, now).Ok?
        ensures Sound(valid, Import(valid, b, Some(parsed), freshId, now).value)
      {
        ImportKeepsSound(valid, b, parsed, freshId, now);
      }
    }
  }

  // ----- Moving a book -----

  ghost predicate Portable(valid: KeyCheck, e: Entry) {
    && e.title == Trim(e.title) != "" && e.address == Trim(e.address) && ValidAddress(valid, e.address)
    && (e.memo.Some? ==> e.memo.value == Trim(e.memo.value) != "")
    && !Falsy(e.id) && !Falsy(e.createdAt) && !Falsy(e.updatedAt)
  }

  ghost predicate PortableBook(valid: KeyCheck, b: Book) {
    && DistinctAddresses(b.entries)
    && (forall i :: 0 <= i < |b.entries| ==> Portable(valid, b.entries[i]))
    && (forall i :: 0 <= i < |b.recents| ==>
          var r := b.recents[i]; r.address == Trim(r.address) && ValidAddress(valid, r.address) && !Falsy(r.lastSentAt))
    && |b.recents| <= MAX_RECENT
    && (b.entries != [] || b.recents != [])
  }

  /** Importing the item makes the entry, whatever id would be generated. */
  ghost predicate ReadsAs(valid: KeyCheck, item: Json, e: Entry, now: Json) {
    && !item.JNull? && Acceptable(valid, item) && Prop(item, AddressName).value.s == e.address && MemoReadable(item)
    && MakeEntry(item, JNull, now) == e && !Falsy(e.id)
  }

  lemma EntryReadsBack(valid: KeyCheck, e: Entry, now: Json)
    requires Portable(valid, e)
    ensures ReadsAs(valid, EntryJson(e), e, now)
  {
    var item := EntryJson(e);
    assert Prop(item, MemoName) == if e.memo.Some? then Some(JStr(e.memo.value)) else None;
    assert Prop(item, LabelName) == Some(JStr(e.title)) && Prop(item, AddressName) == Some(JStr(e.address));
    assert Prop(item, IdName) == Some(e.id) && Prop(item, CreatedAtName) == Some(e.createdAt) && Prop(item, UpdatedAtName) == Some(e.updatedAt);
  }

  lemma IdIsKept(item: Json, freshId: Json, now: Json)
    requires !item.JNull? && IsText(Prop(item, AddressName)) && IsText(Prop(item, LabelName)) && MemoReadable(item)
    requires !Falsy(MakeEntry(item, JNull, now).id)
    ensures MakeEntry(item, freshId, now) == MakeEntry(item, JNull, now)
  {
  }

  /** An item with a new address is collected. */
  lemma CollectsOne(valid: KeyCheck, items: seq<Json>, i: nat, e: Entry, known: set<string>, taken: seq<Entry>, freshId: nat -> Json, now: Json)
    requires i < |items| && ReadsAs(valid, items[i], e, now) && e.address !in known && !Saved(taken, e.address)
    ensures Collect(valid, items, i, known, taken, freshId, now) == Collect(valid, items, i + 1, known + {e.address}, taken + [e], freshId, now)
  {
    IdIsKept(items[i], freshId(|taken|), now);
  }

  /** The items read as the entries, whose addresses are known exactly up to `i`. */
  ghost predicate ReadUpTo(valid: KeyCheck, items: seq<Json>, i: nat, entries: seq<Entry>, known: set<string>, now: Json) {
    && |items| == |entries| && i <= |items| && DistinctAddresses(entries)
    && (forall k :: 0 <= k < |entries| ==> ReadsAs(valid, items[k], entries[k], now))
    && (forall k :: 0 <= k < |entries| ==> (entries[k].address in known <==> k < i))
  }

  lemma ReadUpToNext(valid: KeyCheck, items: seq<Json>, i: nat, entries: seq<Entry>, known: set<string>, now: Json)
    requires ReadUpTo(valid, items, i, entries, known, now) && i < |items|
    ensures ReadUpTo(valid, items, i + 1, entries, known + {entries[i].address}, now)
  {
  }

  lemma NotYetSaved(entries: seq<Entry>, i: nat)
    requires DistinctAddresses(entries) && i < |entries|
    ensures !Saved(entries[..i], entries[i].address)
  {
  }

  lemma NextReadsBack(valid: KeyCheck, items: seq<Json>, i: nat, entries: seq<Entry>, known: set<string>, freshId: nat -> Json, now: Json)
    requires ReadUpTo(valid, items, i, entries, known, now) && i < |items|
    ensures Collect(valid, items, i, known, entries[..i], freshId, now)
         == Collect(valid, items, i + 1, known + {entries[i].address}, entries[..i + 1], freshId, now)
  {
    NotYetSaved(entries, i);
    CollectsOne(valid, items, i, entries[i], known, entries[..i], freshId, now);
    assert entries[..i] + [entries[i]] == entries[..i + 1];
  }

  lemma {:induction false} ItemsReadBack(valid: KeyCheck, items: seq<Json>, i: nat, entries: seq<Entry>, known: set<string>, freshId: nat -> Json, now: Json)
    requires ReadUpTo(valid, items, i, entries, known, now)
    ensures Collect(valid, items, i, known, entries[..i], freshId, now) == Ok(entries)
    decreases |items| - i
  {
    if i < |items| {
      NextReadsBack(valid, items, i, entries, known, freshId, now);
      ReadUpToNext(valid, items, i, entries, known, now);
      ItemsReadBack(valid, items, i + 1, entries, known + {entries[i].address}, freshId, now);
    } else {
      assert entries[..i] == entries;
    }
  }

  lemma {:induction false} RecentsReadBack(valid: KeyCheck, items: seq<Json>, i: nat, recents: seq<Recent>, now: Json)
    requires |items| == |recents| && i <= |items|
    requires forall k :: 0 <= k < |items| ==> !items[k].JNull? && HasValidAddress(valid, items[k]) && MakeRecent(items[k], now) == recents[k]
    ensures CollectRecents(valid, items, i, recents[..i], now) == Ok(recents)
    decreases |items| - i
  {
    if i < |items| {
      assert recents[..i] + [recents[i]] == recents[..i + 1];
      RecentsReadBack(valid, items, i + 1, recents, now);
    } else {
      assert recents[..i] == recents;
    }
  }

  lemma ExportIsReadable(b: Book, exportedAt: Json)
    ensures Incoming(Export(b, exportedAt)) == Some((EntriesJson(b.entries), RecentsJson(b.recents)))
  {
  }

  lemma EntriesReadBack(valid: KeyCheck, b: Book, freshId: nat -> Json, now: Json)
    requires PortableBook(valid, b)
    ensures Collect(valid, EntriesJson(b.entries), 0, {}, [], freshId, now) == Ok(b.entries)
  {
    forall i | 0 <= i < |b.entries| ensures ReadsAs(valid, EntriesJson(b.entries)[i], b.entries[i], now) {
      EntryReadsBack(valid, b.entries[i], now);
    }
    assert b.entries[..0] == [];
    ItemsReadBack(valid, EntriesJson(b.entries), 0, b.entries, {}, freshId, now);
  }

  lemma RecipientsReadBack(valid: KeyCheck, b: Book, now: Json)
    requires PortableBook(valid, b)
    ensures CollectRecents(valid, RecentsJson(b.recents), 0, [], now) == Ok(b.recents)
  {
    assert b.recents[..0] == [];
    RecentsReadBack(valid, RecentsJson(b.recents), 0, b.recents, now);
  }

  /** Importing the export of a well-formed, non-empty book into an empty one restores it, in order. */
  lemma ExportThenImport(valid: KeyCheck, b: Book, exportedAt: Json, freshId: nat -> Json, now: Json)
    requires PortableBook(valid, b)
    ensures Import(valid, EMPTY, Some(Export(b, exportedAt)), freshId, now) == Ok(b)
  {
    EntriesReadBack(valid, b, freshId, now);
    RecipientsReadBack(valid, b, now);
    ExportIsReadable(b, exportedAt);
    assert AddressesOf(EMPTY.entries) == {};
    assert EMPTY.entries + b.entries == b.entries && b.recents + EMPTY.recents == b.recents;
  }

  // ----- Recent recipients -----

  function WithoutAddress(recents: seq<Recent>, address: string): (r: seq<Recent>)
    ensures forall x :: x in r <==> x in recents && x.address != address
    ensures |r| <= |recents|
  {
    if recents == [] then []
    else (if recents[0].address == address then [] else [recents[0]]) + WithoutAddress(recents[1..], address)
  }

  function CountOf(recents: seq<Recent>, address: string): int {
    if recents == [] then 0 else if recents[0].address == address then recents[0].count else CountOf(recents[1..], address)
  }

  function AddRecent(valid: KeyCheck, recents: seq<Recent>, address: string, now: Json): seq<Recent> {
    var trimmed := Trim(address);
    if !ValidAddress(valid, trimmed) then recents
    else TakeRecents([Recent(trimmed, now, CountOf(recents, trimmed) + 1)] + WithoutAddress(recents, trimmed))
  }

  ghost predicate DistinctRecents(recents: seq<Recent>) {
    forall i, j :: 0 <= i < j < |recents| ==> recents[i].address != recents[j].address
  }

  lemma {:induction false} WithoutKeepsDistinct(recents: seq<Recent>, address: string)
    requires DistinctRecents(recents)
    ensures DistinctRecents(WithoutAddress(recents, address))
    decreases |recents|
  {
    if recents != [] {
      WithoutKeepsDistinct(recents[1..], address);
      var tail := WithoutAddress(recents[1..], address);
      forall k | 0 <= k < |tail| ensures tail[k].address != recents[0].address {
        assert tail[k] in recents[1..];
      }
    }
  }

  /** Sending to an address puts it first with its count one higher, once, and keeps at most twenty. */
  lemma RecentComesFirst(valid: KeyCheck, recents: seq<Recent>, address: string, now: Json)
    requires DistinctRecents(recents) && ValidAddress(valid, Trim(address))
    ensures var r := AddRecent(valid, recents, address, now);
            && DistinctRecents(r) && 1 <= |r| <= MAX_RECENT
            && r[0] == Recent(Trim(address), now, CountOf(recents, Trim(address)) + 1)
            && forall x :: x in r[1..] ==> x in recents && x.address != Trim(address)
  {
    var trimmed := Trim(address);
    WithoutKeepsDistinct(recents, trimmed);
    TrimTwice(address);
    FrontKeepsDistinct(Recent(trimmed, now, CountOf(recents, trimmed) + 1), WithoutAddress(recents, trimmed));
  }

  lemma {:induction false} OneMovesOut(before: seq<Recent>, r: Recent, after: seq<Recent>)
    requires forall x :: x in before + after ==> x.address != r.address
    ensures WithoutAddress(before + [r] + after, r.address) == before + after && CountOf(before + [r] + after, r.address) == r.count
    decreases |before|
  {
    var all := before + [r] + after;
    if before == [] {
      assert all[1..] == after && before + after == after;
      NoneMovesOut(after, r.address);
    } else {
      assert all[1..] == before[1..] + [r] + after && before + after == [before[0]] + (before[1..] + after);
      OneMovesOut(before[1..], r, after);
    }
  }

  lemma {:induction false} NoneMovesOut(recents: seq<Recent>, address: string)
    requires forall x :: x in recents ==> x.address != address
    ensures WithoutAddress(recents, address) == recents && CountOf(recents, address) == 0
    decreases |recents|
  {
    if recents != [] {
      NoneMovesOut(recents[1..], address);
    }
  }

  /** The list that begins with the recipient, goes on with the others, and ends after twenty. */
  function Fronted(address: string, now: Json, count: int, others: seq<Recent>): seq<Recent> {
    [Recent(address, now, count)] + (if |others| > 19 then others[..19] else others)
  }

  lemma TakesTwenty(first: Recent, others: seq<Recent>)
    ensures TakeRecents([first] + others) == Fronted(first.address, first.lastSentAt, first.count, others)
  {
  }

  lemma SentTo(valid: KeyCheck, recents: seq<Recent>, address: string, now: Json, count: int, others: seq<Recent>)
    requires count == CountOf(recents, Trim(address)) && others == WithoutAddress(recents, Trim(address))
    ensures AddRecent(valid, recents, address, now)
         == if ValidAddress(valid, Trim(address)) then Fronted(Trim(address), now, count + 1, others) else recents
  {
    TakesTwenty(Recent(Trim(address), now, count + 1), others);
  }

  /** Sending again to a recipient: it moves to the front, counted once more, and all others keep their order. */
  lemma RecentAgain(valid: KeyCheck, before: seq<Recent>, r: Recent, after: seq<Recent>, address: string, now: Json)
    requires r.address == Trim(address) && ValidAddress(valid, r.address) && forall x :: x in before + after ==> x.address != r.address
    ensures AddRecent(valid, before + [r] + after, address, now) == Fronted(r.address, now, r.count + 1, before + after)
  {
    OneMovesOut(before, r, after);
    SentTo(valid, before + [r] + after, address, now, r.count, before + after);
  }

  /** Sending for the first time: the recipient goes in front of all others; to an invalid address, nothing happens. */
  lemma RecentNew(valid: KeyCheck, recents: seq<Recent>, address: string, now: Json)
    requires forall x :: x in recents ==> x.address != Trim(address)
    ensures AddRecent(valid, recents, address, now)
         == if ValidAddress(valid, Trim(address)) then Fronted(Trim(address), now, 1, recents) else recents
  {
    NoneMovesOut(recents, Trim(address));
    SentTo(valid, recents, address, now, 0, recents);
  }

  lemma FrontKeepsDistinct(first: Recent, rest: seq<Recent>)
    requires DistinctRecents(rest) && forall x :: x in rest ==> x.address != first.address
    ensures var r := TakeRecents([first] + rest);
            && DistinctRecents(r) && 1 <= |r| <= MAX_RECENT && r[0] == first
            && forall x :: x in r[1..] ==> x in rest
  {
    var r := TakeRecents([first] + rest);
    assert forall k :: 0 <= k < |rest| ==> rest[k] in rest;
    assert r[1..] == rest[..|r| - 1];
  }

  // ----- The store as an object -----

  class AddressBookStore {
    var entries: seq<Entry>
    var recentRecipients: seq<Recent>
    const valid: KeyCheck

    function View(): Book
      reads this
    {
      Book(entries, recentRecipients)
    }

    constructor (valid: KeyCheck)
      ensures View() == EMPTY && this.valid == valid
    {
      entries, recentRecipients := [], [];
      this.valid := valid;
    }

    method AddEntry(title: string, address: string, memo: Option<string>, id: Json, now: Json) returns (error: Option<string>)
      modifies this
      ensures var r := Add(valid, old(View()), title, address, memo, id, now);
              if r.Ok? then error.None? && View() == r.value else error == Some(r.error) && View() == old(View())
    {
      var trimmedLabel, trimmedAddress := Trim(title), Trim(address);
      if ValidateLabel(trimmedLabel).Some? {
        return ValidateLabel(trimmedLabel);
      }
      if trimmedAddress == "" {
        return Some("Address is required");
      }
      if !ValidAddress(valid, trimmedAddress) {
        return Some("Invalid Stellar address");
      }
      if Saved(entries, trimmedAddress) {
        return Some("This address is already saved");
      }
      entries := entries + [Entry(id, trimmedLabel, trimmedAddress, if memo.Some? then NonEmpty(Trim(memo.value)) else None, now, now)];
      error := None;
    }

    method UpdateEntry(id: Json, title: Option<string>, address: Option<string>, memo: Option<string>, now: Json) returns (error: Option<string>)
      modifies this
      ensures var r := Update(valid, old(View()), id, title, address, memo, now);
              if r.Ok? then error.None? && View() == r.value else error == Some(r.error) && View() == old(View())
    {
      var existing := FindId(entries, id);
      if existing.None? {
        return Some("Contact not found");
      }
      var newLabel := if title.Some? then Trim(title.value) else existing.value.title;
      var newAddress := if address.Some? then Trim(address.value) else existing.value.address;
      var newMemo := if memo.Some? then NonEmpty(Trim(memo.value)) else existing.value.memo;
      if ValidateLabel(newLabel).Some? {
        return ValidateLabel(newLabel);
      }
      if newAddress == "" {
        return Some("Address is required");
      }
      if !ValidAddress(valid, newAddress) {
        return Some("Invalid Stellar address");
      }
      if TakenByOther(entries, newAddress, id) {
        return Some("This address is already saved");
      }
      entries := ReplaceId(entries, id, existing.value.(title := newLabel, address := newAddress, memo := newMemo, updatedAt := now));
      error := None;
    }

    method RemoveEntry(id: Json) returns (error: Option<string>)
      modifies this
      ensures var r := Remove(old(View()), id);
              if r.Ok? then error.None? && View() == r.value else error == Some(r.error) && View() == old(View())
    {
      if FindId(entries, id).None? {
        return Some("Contact not found");
      }
      entries := WithoutId(entries, id);
      error := None;
    }

    method AddRecentRecipient(address: string, now: Json)
      modifies this
      ensures View() == old(View()).(recents := AddRecent(valid, old(View()).recents, address, now))
    {
      var trimmed := Trim(address);
      if !ValidAddress(valid, trimmed) {
        return;
      }
      var updated := [Recent(trimmed, now, CountOf(recentRecipients, trimmed) + 1)] + WithoutAddress(recentRecipients, trimmed);
      if |updated| > MAX_RECENT {
        updated := updated[..MAX_RECENT];
      }
      recentRecipients := updated;
    }

    /** The loop of `importData` over entries. */
    method CollectEntries(items: seq<Json>, freshId: nat -> Json, now: Json) returns (r: Result<seq<Entry>, string>)
      ensures r == Collect(valid, items, 0, AddressesOf(entries), [], freshId, now)
    {
      var validEntries: seq<Entry> := [];
      var existingAddresses := AddressesOf(entries);
      var i := 0;
      while i < |items|
        invariant i <= |items|
        invariant Collect(valid, items, i, existingAddresses, validEntries, freshId, now)
               == Collect(valid, items, 0, AddressesOf(entries), [], freshId, now)
      {
        var item := items[i];
        if item.JNull? {
          return Err("TypeError");
        }
        if Acceptable(valid, item) {
          var spelled := Prop(item, AddressName).value.s;
          if !(spelled in existingAddresses || Saved(validEntries, spelled)) {
            if !MemoReadable(item) {
              return Err("TypeError");
            }
            validEntries := validEntries + [MakeEntry(item, freshId(|validEntries|), now)];
            existingAddresses := existingAddresses + {spelled};
          }
        }
        i := i + 1;
      }
      r := Ok(validEntries);
    }

    /** The loop of `importData` over recent recipients. */
    method CollectRecipients(items: seq<Json>, now: Json) returns (r: Result<seq<Recent>, string>)
      ensures r == CollectRecents(valid, items, 0, [], now)
    {
      var validRecents: seq<Recent> := [];
      var i := 0;
      while i < |items|
        invariant i <= |items|
        invariant CollectRecents(valid, items, i, validRecents, now) == CollectRecents(valid, items, 0, [], now)
      {
        var item := items[i];
        if item.JNull? {
          return Err("TypeError");
        }
        if HasValidAddress(valid, item) {
          validRecents := validRecents + [MakeRecent(item, now)];
        }
        i := i + 1;
      }
      r := Ok(validRecents);
    }

    method ImportData(parsed: Option<Json>, freshId: nat -> Json, now: Json) returns (error: Option<string>)
      modifies this
      ensures var r := Import(valid, old(View()), parsed, freshId, now);
              if r.Ok? then error.None? && View() == r.value else error == Some(r.error) && View() == old(View())
    {
      if parsed.None? || Incoming(parsed.value).None? {
        return Some("Invalid import format");
      }
      var (items, recents) := Incoming(parsed.value).value;
      var validEntries := CollectEntries(items, freshId, now);
      if validEntries.Err? {
        return Some(validEntries.error);
      }
      var validRecents := CollectRecipients(recents, now);
      if validRecents.Err? {
        return Some(validRecents.error);
      }
      if validEntries.value == [] && validRecents.value == [] {
        return Some("No valid entries to import");
      }
      entries := entries + validEntries.value;
      if validRecents.value != [] {
        recentRecipients := TakeRecents(validRecents.value + recentRecipients);
      }
      error := None;
    }
  }
}
