/** The `nodes` table: upserts of whole batches, and what loading gives back. */
module NodeTable {
  import opened Common
  import opened NodeList

  const TAG_SLOTS := 5

  /** One row. The table has a unique URL per row; rows are in order of their ids. */
  datatype Row = Row(url: string, displayName: string, enabled: int, targets: seq<string>, token: string,
                     slots: seq<Tag>, createdAt: int, updatedAt: int)
  type Table = seq<Row>

  // ---------- rows and nodes ----------

  function BoolToInt(b: bool): int {
    if b then 1 else 0
  }

  /** The name and colour stored in slot `idx`; empty when there is no such tag. */
  function TagValue(tags: seq<Tag>, idx: nat): Tag {
    if idx < |tags| then tags[idx] else Tag("", "")
  }

  function Slots(tags: seq<Tag>): (s: seq<Tag>)
    ensures |s| == TAG_SLOTS
  {
    seq(TAG_SLOTS, i requires 0 <= i => TagValue(tags, i))
  }

  function Encode(n: NodeInfo, createdAt: int, updatedAt: int): Row {
    Row(n.url, n.displayName, BoolToInt(n.enabled), n.targets, n.token, Slots(n.tags), createdAt, updatedAt)
  }

  function Named(tags: seq<Tag>): seq<Tag> {
    if tags == [] then []
    else if Last(tags).name != "" then Named(Init(tags)) + [Last(tags)] else Named(Init(tags))
  }

  function Decode(r: Row): NodeInfo {
    NodeInfo(r.url, r.displayName, r.enabled != 0, r.targets, r.token, Named(r.slots))
  }

  function Load(table: Table): Nodes {
    seq(|table|, i requires 0 <= i < |table| => Decode(table[i]))
  }

  function FirstFive(tags: seq<Tag>): seq<Tag> {
    if |tags| <= TAG_SLOTS then tags else tags[..TAG_SLOTS]
  }

  // ---------- the tag slots ----------

  lemma NamedSnoc(tags: seq<Tag>, t: Tag)
    ensures Named(tags + [t]) == Named(tags) + if t.name != "" then [t] else []
  {
    assert Init(tags + [t]) == tags;
  }

  lemma ConcatAssociative<T>(a: seq<T>, b: seq<T>, c: seq<T>)
    ensures (a + b) + c == a + (b + c)
  {
  }

  lemma {:induction false} NamedConcat(a: seq<Tag>, b: seq<Tag>)
    ensures Named(a + b) == Named(a) + Named(b)
  {
    if b == [] {
      assert a + b == a;
    } else {
      hide Named;
      var init, t := Init(b), Last(b);
      NamedConcat(a, init);
      NamedSnoc(a + init, t);
      NamedSnoc(init, t);
      assert init + [t] == b;
      ConcatAssociative(a, init, [t]);
      ConcatAssociative(Named(a), Named(init), if t.name != "" then [t] else []);
    }
  }

  lemma {:induction false} NamedOfUnnamed(tags: seq<Tag>)
    requires forall t | t in tags :: t.name == ""
    ensures Named(tags) == []
  {
    if tags != [] {
      assert Last(tags) in tags;
      NamedOfUnnamed(Init(tags));
    }
  }

  lemma {:induction false} NamedIsNamed(tags: seq<Tag>)
    ensures Named(Named(tags)) == Named(tags) && |Named(tags)| <= |tags|
  {
    if tags != [] {
      NamedIsNamed(Init(tags));
      NamedConcat(Named(Init(tags)), [Last(tags)]);
      assert Init([Last(tags)]) == [];
    }
  }

  /** Up to five named tags come back as they are, and of more the first five. */
  lemma FiveTags(n: NodeInfo, createdAt: int, updatedAt: int)
    requires forall t | t in n.tags :: t.name != ""
    ensures Decode(Encode(n, createdAt, updatedAt)).tags == if |n.tags| <= 5 then n.tags else n.tags[..5]
  {
    SlotsAreFirstFive(n.tags);
    assert forall i | 0 <= i < |n.tags| :: n.tags[i] in n.tags;
    AllNamed(FirstFive(n.tags));
  }

  lemma {:induction false} AllNamed(tags: seq<Tag>)
    requires forall i | 0 <= i < |tags| :: tags[i].name != ""
    ensures Named(tags) == tags
  {
    if tags != [] {
      hide Named;
      var init, t := Init(tags), Last(tags);
      assert tags == init + [t] && t == tags[|tags| - 1];
      NamedSnoc(init, t);
      AllNamed(init);
    }
  }

  /** A disabled node is stored as 0, an enabled one as 1; every number but 0 is loaded as enabled. */
  lemma EnabledColumn(n: NodeInfo, createdAt: int, updatedAt: int, r: Row)
    ensures Encode(n, createdAt, updatedAt).enabled == if n.enabled then 1 else 0
    ensures Decode(r).enabled <==> r.enabled != 0
  {
  }

  /** Storing and loading keeps the named tags among the first five, in order. */
  lemma TagsNormalised(tags: seq<Tag>)
    ensures Named(Slots(tags)) == Named(FirstFive(tags))
    ensures Named(Slots(Named(Slots(tags)))) == Named(Slots(tags))
  {
    SlotsAreFirstFive(tags);
    NamedIsNamed(FirstFive(tags));
    SlotsAreFirstFive(Named(FirstFive(tags)));
  }

  lemma SlotsAreFirstFive(tags: seq<Tag>)
    ensures Named(Slots(tags)) == Named(FirstFive(tags))
  {
    var first := FirstFive(tags);
    var padding := Slots(tags)[|first|..];
    assert Slots(tags) == first + padding;
    NamedOfUnnamed(padding);
    NamedConcat(first, padding);
  }

  /** A stored node comes back with all its fields, the tags normalised. */
  lemma DecodeEncode(n: NodeInfo, createdAt: int, updatedAt: int)
    ensures Decode(Encode(n, createdAt, updatedAt)) == n.(tags := Named(FirstFive(n.tags)))
  {
    TagsNormalised(n.tags);
  }

  // ---------- upserts ----------

  function RowOf(table: Table, url: string): Option<Row> {
    if table == [] then None
    else if Last(table).url == url then Some(Last(table)) else RowOf(Init(table), url)
  }

  function LastOf(batch: Nodes, url: string): Option<NodeInfo> {
    if batch == [] then None
    else if Last(batch).url == url then Some(Last(batch)) else LastOf(Init(batch), url)
  }

  predicate UniqueUrls(table: Table) {
    forall i, j | 0 <= i < j < |table| :: table[i].url != table[j].url
  }

  /** `created_at` of a row, or `now` when there is none. */
  function CreatedAt(table: Table, url: string, now: int): int {
    match RowOf(table, url)
    case Some(r) => r.createdAt
    case None => now
  }

  /** One `INSERT ... ON CONFLICT(url) DO UPDATE`. */
  function Upsert(table: Table, n: NodeInfo, now: int): Table {
    if RowOf(table, n.url) == None then table + [Encode(n, now, now)]
    else seq(|table|, i requires 0 <= i < |table| =>
           if table[i].url == n.url then Encode(n, table[i].createdAt, now) else table[i])
  }

  function SaveAll(table: Table, batch: Nodes, now: int): Table {
    if batch == [] then table else Upsert(SaveAll(table, Init(batch), now), Last(batch), now)
  }

  lemma {:induction false} RowOfIsThere(table: Table, url: string)
    ensures RowOf(table, url) == None <==> forall i | 0 <= i < |table| :: table[i].url != url
    ensures RowOf(table, url).Some? ==> RowOf(table, url).value.url == url
  {
    if table != [] {
      RowOfIsThere(Init(table), url);
      assert forall i | 0 <= i < |table| - 1 :: Init(table)[i] == table[i];
      assert table[|table| - 1] == Last(table);
    }
  }

  lemma {:induction false} RowAt(table: Table, i: nat)
    requires UniqueUrls(table) && i < |table|
    ensures RowOf(table, table[i].url) == Some(table[i])
  {
    if i < |table| - 1 {
      assert Init(table)[i] == table[i];
      RowAt(Init(table), i);
    }
  }

  lemma {:induction false} UpsertRow(table: Table, n: NodeInfo, now: int, url: string)
    requires UniqueUrls(table)
    ensures UniqueUrls(Upsert(table, n, now))
    ensures RowOf(Upsert(table, n, now), url)
            == if url == n.url then Some(Encode(n, CreatedAt(table, url, now), now)) else RowOf(table, url)
  {
    var after := Upsert(table, n, now);
    RowOfIsThere(table, n.url);
    if RowOf(table, n.url) == None {
      assert Init(after) == table;
    } else {
      assert UniqueUrls(after);
      RowOfIsThere(table, url);
      RowOfIsThere(after, url);
      if i :| 0 <= i < |table| && table[i].url == url {
        RowAt(table, i);
        assert after[i].url == url;
        RowAt(after, i);
      } else {
        forall i | 0 <= i < |after| ensures after[i].url != url { assert table[i].url != url; }
      }
    }
  }

  /**
   A saved batch: every URL in it has a row equal to its last occurrence, with the creation time
   it had before; all other rows are as they were, and none disappears.
   */
  lemma {:induction false} SavedRows(table: Table, batch: Nodes, now: int, url: string)
    requires UniqueUrls(table)
    ensures UniqueUrls(SaveAll(table, batch, now))
    ensures RowOf(SaveAll(table, batch, now), url)
            == match LastOf(batch, url)
               case Some(n) => Some(Encode(n, CreatedAt(table, url, now), now))
               case None => RowOf(table, url)
  {
    if batch != [] {
      SavedRows(table, Init(batch), now, url);
      SavedRows(table, Init(batch), now, Last(batch).url);
      UpsertRow(SaveAll(table, Init(batch), now), Last(batch), now, url);
    }
  }

  /** Saving stamps a row with the time of the save and keeps when it was created. */
  lemma SavedTimes(table: Table, batch: Nodes, now: int, url: string)
    requires UniqueUrls(table) && LastOf(batch, url).Some?
    ensures var row := RowOf(SaveAll(table, batch, now), url);
            && row.Some? && row.value.updatedAt == now
            && row.value.createdAt == (if RowOf(table, url).Some? then RowOf(table, url).value.createdAt else now)
  {
    SavedRows(table, batch, now, url);
  }

  /** Existing rows keep their place. */
  lemma {:induction false} SaveKeepsPlaces(table: Table, batch: Nodes, now: int)
    ensures |table| <= |SaveAll(table, batch, now)|
    ensures forall i | 0 <= i < |table| :: SaveAll(table, batch, now)[i].url == table[i].url
  {
    if batch != [] {
      SaveKeepsPlaces(table, Init(batch), now);
    }
  }

  lemma {:induction false} SaveKnownAddsNone(table: Table, batch: Nodes, now: int)
    requires forall n | n in batch :: RowOf(table, n.url).Some?
    requires UniqueUrls(table)
    ensures |SaveAll(table, batch, now)| == |table|
  {
    if batch != [] {
      var before := SaveAll(table, Init(batch), now);
      SaveKnownAddsNone(table, Init(batch), now);
      assert Last(batch) in batch;
      SavedRows(table, Init(batch), now, Last(batch).url);
    }
  }

  lemma {:induction false} LoadedIsLast(table: Table, i: nat)
    requires UniqueUrls(table) && i < |table|
    ensures LastOf(Load(table), table[i].url) == Some(Decode(table[i]))
  {
    assert Init(Load(table)) == Load(Init(table));
    if i < |table| - 1 {
      assert Init(table)[i] == table[i];
      LoadedIsLast(Init(table), i);
    }
  }

  /** Saving what was loaded changes nothing that loading shows. */
  lemma LoadSaveLoad(table: Table, now: int)
    requires UniqueUrls(table) && forall r | r in table :: |r.slots| == TAG_SLOTS
    ensures Load(SaveAll(table, Load(table), now)) == Load(table)
  {
    var batch, after := Load(table), SaveAll(table, Load(table), now);
    forall n | n in batch
      ensures RowOf(table, n.url).Some?
    {
      var i :| 0 <= i < |batch| && batch[i] == n;
      RowAt(table, i);
    }
    SaveKnownAddsNone(table, batch, now);
    SaveKeepsPlaces(table, batch, now);
    forall i | 0 <= i < |table|
      ensures Decode(after[i]) == Decode(table[i])
    {
      SavedRows(table, batch, now, table[i].url);
      RowAt(after, i);
      LoadedIsLast(table, i);
      DecodeEncode(Decode(table[i]), 0, 0);
      assert table[i] in table;
      SlotsReload(table[i].slots);
    }
  }

  lemma SlotsReload(slots: seq<Tag>)
    requires |slots| == TAG_SLOTS
    ensures Named(FirstFive(Named(slots))) == Named(slots)
  {
    NamedIsNamed(slots);
  }
}
