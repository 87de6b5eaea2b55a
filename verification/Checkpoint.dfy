/** The file-backed checkpoint saver: memory, one JSON document per thread, crashes and restarts. */
module Checkpoint {
  import opened Common
  import opened Codec

  // ------------------------------------------------------------------------- memory

  /** A thread id, as the UTF-8 bytes its file name is made from. */
  datatype Thread = Thread(utf8: seq<byte>)

  datatype Name = Name(text: string)

  datatype Blob = Blob(kind: string, payload: seq<byte>)

  datatype Saved = Saved(checkpoint: Blob, metadata: Blob, parent: Option<Name>)

  datatype WriteKey = WriteKey(thread: Thread, ns: Name, checkpoint: Name)

  datatype Slot = Slot(task: Name, idx: int)

  datatype Write = Write(task: Name, channel: Name, blob: Blob, path: Name)

  datatype BlobKey = BlobKey(thread: Thread, ns: Name, channel: Name, version: Name)

  type Storage = map<Thread, map<Name, map<Name, Saved>>>
  type Writes = map<WriteKey, map<Slot, Write>>
  type Blobs = map<BlobKey, Blob>

  datatype Memory = Memory(storage: Storage, writes: Writes, blobs: Blobs)

  const EMPTY_MEMORY := Memory(map[], map[], map[])

  function FindSaved(storage: Storage, t: Thread, ns: Name, c: Name): Option<Saved> {
    if t in storage && ns in storage[t] && c in storage[t][ns] then Some(storage[t][ns][c]) else None
  }

  function FindWrite(writes: Writes, k: WriteKey, s: Slot): Option<Write> {
    if k in writes && s in writes[k] then Some(writes[k][s]) else None
  }

  function FindBlob(blobs: Blobs, k: BlobKey): Option<Blob> {
    if k in blobs then Some(blobs[k]) else None
  }

  /** The two memories answer every lookup for t alike. */
  ghost predicate Same(m: Memory, m': Memory, t: Thread) {
    && (forall ns, c :: FindSaved(m.storage, t, ns, c) == FindSaved(m'.storage, t, ns, c))
    && (forall k: WriteKey, s | k.thread == t :: FindWrite(m.writes, k, s) == FindWrite(m'.writes, k, s))
    && (forall k: BlobKey | k.thread == t :: FindBlob(m.blobs, k) == FindBlob(m'.blobs, k))
  }

  ghost predicate SameLookups(m: Memory, m': Memory) {
    forall t :: Same(m, m', t)
  }

  /** The task a stored write names is the task of its slot. */
  ghost predicate TasksAgree(m: Memory) {
    forall k, s | FindWrite(m.writes, k, s).Some? :: FindWrite(m.writes, k, s).value.task == s.task
  }

  // ---------------------------------------------------------------------- documents

  datatype BlobJson = BlobJson(kind: string, text: string)

  datatype SavedJson = SavedJson(checkpoint: BlobJson, metadata: BlobJson, parent: Option<Name>)

  datatype SlotJson = SlotJson(task: Name, idx: int, taskAgain: Name, channel: Name, blob: BlobJson, path: Name)

  datatype WritesJson = WritesJson(key: WriteKey, entries: seq<SlotJson>)

  datatype ChannelJson = ChannelJson(key: BlobKey, blob: BlobJson)

  datatype Document = Document(
    storage: map<Thread, map<Name, map<Name, SavedJson>>>, writes: seq<WritesJson>, blobs: seq<ChannelJson>)

  const EMPTY_DOCUMENT := Document(map[], [], [])

  function EncodeBlob(b: Blob): BlobJson {
    BlobJson(b.kind, Encode64(b.payload))
  }

  predicate Decodable(j: BlobJson) {
    Decode64(j.text).Some?
  }

  function DecodeBlob(j: BlobJson): Blob {
    Blob(j.kind, if Decodable(j) then Decode64(j.text).value else [])
  }

  lemma BlobRoundTrip(b: Blob)
    ensures Decodable(EncodeBlob(b)) && DecodeBlob(EncodeBlob(b)) == b
    ensures EncodeBlob(b).kind == b.kind && Decode64(EncodeBlob(b).text) == Some(b.payload)
  {
    Base64RoundTrip(b.payload);
  }

  function EncodeSaved(s: Saved): SavedJson {
    SavedJson(EncodeBlob(s.checkpoint), EncodeBlob(s.metadata), s.parent)
  }

  function DecodeSaved(j: SavedJson): Saved {
    Saved(DecodeBlob(j.checkpoint), DecodeBlob(j.metadata), j.parent)
  }

  function EncodeWrite(s: Slot, w: Write): SlotJson {
    SlotJson(s.task, s.idx, s.task, w.channel, EncodeBlob(w.blob), w.path)
  }

  function DecodeWrite(j: SlotJson): Write {
    Write(j.taskAgain, j.channel, DecodeBlob(j.blob), j.path)
  }

  /** What the document says about a checkpoint, a write slot and a channel blob: the last entry wins. */
  function DocSaved(doc: Document, t: Thread, ns: Name, c: Name): Option<Saved> {
    if t in doc.storage && ns in doc.storage[t] && c in doc.storage[t][ns]
    then Some(DecodeSaved(doc.storage[t][ns][c])) else None
  }

  function LastSlot(entries: seq<SlotJson>, s: Slot): Option<Write> {
    if entries == [] then None
    else
      var e := entries[|entries| - 1];
      if Slot(e.task, e.idx) == s then Some(DecodeWrite(e)) else LastSlot(entries[..|entries| - 1], s)
  }

  function LastWrite(writes: seq<WritesJson>, k: WriteKey, s: Slot): Option<Write> {
    if writes == [] then None
    else
      var e := writes[|writes| - 1];
      if e.key == k && LastSlot(e.entries, s).Some? then LastSlot(e.entries, s)
      else LastWrite(writes[..|writes| - 1], k, s)
  }

  function LastBlob(blobs: seq<ChannelJson>, k: BlobKey): Option<Blob> {
    if blobs == [] then None
    else
      var e := blobs[|blobs| - 1];
      if e.key == k then Some(DecodeBlob(e.blob)) else LastBlob(blobs[..|blobs| - 1], k)
  }

  ghost predicate LastEntry(entries: seq<SlotJson>, s: Slot, i: int) {
    && 0 <= i < |entries| && Slot(entries[i].task, entries[i].idx) == s
    && forall k | i < k < |entries| :: Slot(entries[k].task, entries[k].idx) != s
  }

  /** Of several entries for a slot the last one counts. */
  lemma {:induction false} LastSlotIs(entries: seq<SlotJson>, s: Slot)
    ensures LastSlot(entries, s).None? <==> forall e | e in entries :: Slot(e.task, e.idx) != s
    ensures forall i | LastEntry(entries, s, i) :: LastSlot(entries, s) == Some(DecodeWrite(entries[i]))
  {
    if entries != [] {
      var n := |entries| - 1;
      SplitLast(entries);
      LastSlotIs(entries[..n], s);
      forall i | LastEntry(entries, s, i) ensures LastSlot(entries, s) == Some(DecodeWrite(entries[i])) {
        assert i < n ==> LastEntry(entries[..n], s, i);
      }
    }
  }

  ghost predicate LastGroup(writes: seq<WritesJson>, k: WriteKey, s: Slot, i: int) {
    && 0 <= i < |writes| && writes[i].key == k && LastSlot(writes[i].entries, s).Some?
    && forall j | i < j < |writes| && writes[j].key == k :: LastSlot(writes[j].entries, s).None?
  }

  /** Of several groups for a key the last one that has the slot counts. */
  lemma {:induction false} LastWriteIs(writes: seq<WritesJson>, k: WriteKey, s: Slot)
    ensures LastWrite(writes, k, s).None? <==> forall e | e in writes && e.key == k :: LastSlot(e.entries, s).None?
    ensures forall i | LastGroup(writes, k, s, i) :: LastWrite(writes, k, s) == LastSlot(writes[i].entries, s)
  {
    if writes != [] {
      var n := |writes| - 1;
      SplitLast(writes);
      LastWriteIs(writes[..n], k, s);
      forall i | LastGroup(writes, k, s, i) ensures LastWrite(writes, k, s) == LastSlot(writes[i].entries, s) {
        assert i < n ==> LastGroup(writes[..n], k, s, i);
      }
    }
  }

  ghost predicate LastChannel(blobs: seq<ChannelJson>, k: BlobKey, i: int) {
    0 <= i < |blobs| && blobs[i].key == k && forall j | i < j < |blobs| :: blobs[j].key != k
  }

  /** Of several entries for a channel version the last one counts. */
  lemma {:induction false} LastBlobIs(blobs: seq<ChannelJson>, k: BlobKey)
    ensures LastBlob(blobs, k).None? <==> forall e | e in blobs :: e.key != k
    ensures forall i | LastChannel(blobs, k, i) :: LastBlob(blobs, k) == Some(DecodeBlob(blobs[i].blob))
  {
    if blobs != [] {
      var n := |blobs| - 1;
      SplitLast(blobs);
      LastBlobIs(blobs[..n], k);
      forall i | LastChannel(blobs, k, i) ensures LastBlob(blobs, k) == Some(DecodeBlob(blobs[i].blob)) {
        assert i < n ==> LastChannel(blobs[..n], k, i);
      }
    }
  }

  /** The document answers every lookup for t as the memory does. */
  ghost predicate Represents(doc: Document, m: Memory, t: Thread) {
    && (forall ns, c :: DocSaved(doc, t, ns, c) == FindSaved(m.storage, t, ns, c))
    && (forall k: WriteKey, s | k.thread == t :: LastWrite(doc.writes, k, s) == FindWrite(m.writes, k, s))
    && (forall k: BlobKey | k.thread == t :: LastBlob(doc.blobs, k) == FindBlob(m.blobs, k))
  }

  /** Every entry of the document belongs to t. */
  ghost predicate OnlyThread(doc: Document, t: Thread) {
    && (forall u | u in doc.storage :: u == t)
    && (forall e | e in doc.writes :: e.key.thread == t)
    && (forall e | e in doc.blobs :: e.key.thread == t)
  }

  /** Every blob text of the document decodes. */
  predicate Readable(doc: Document) {
    && (forall t, ns, c | t in doc.storage && ns in doc.storage[t] && c in doc.storage[t][ns] ::
          Decodable(doc.storage[t][ns][c].checkpoint) && Decodable(doc.storage[t][ns][c].metadata))
    && (forall e, j | e in doc.writes && j in e.entries :: Decodable(j.blob))
    && (forall e | e in doc.blobs :: Decodable(e.blob))
  }

  // ------------------------------------------------------- memory to document and back

  /** `_storage_to_json`, one thread's namespaces. */
  function NamespacesToJson(namespaces: map<Name, map<Name, Saved>>): map<Name, map<Name, SavedJson>> {
    map ns | ns in namespaces :: map c | c in namespaces[ns] :: EncodeSaved(namespaces[ns][c])
  }

  /** The list of one key's writes, in any order of the dictionary. The stored task is dropped for the slot's. */
  method SlotsToJson(saved: map<Slot, Write>) returns (entries: seq<SlotJson>)
    ensures forall s :: LastSlot(entries, s) == if s in saved then Some(saved[s].(task := s.task)) else None
    ensures forall j | j in entries :: Decodable(j.blob)
  {
    entries := [];
    var left := saved.Keys;
    while left != {}
      invariant left <= saved.Keys
      invariant forall s :: LastSlot(entries, s) ==
                  if s in saved && s !in left then Some(saved[s].(task := s.task)) else None
      invariant forall j | j in entries :: Decodable(j.blob)
    {
      var s :| s in left;
      BlobRoundTrip(saved[s].blob);
      var e := EncodeWrite(s, saved[s]);
      assert (entries + [e])[..|entries|] == entries;
      entries := entries + [e];
      left := left - {s};
    }
  }

  /** `_writes_to_json`, in any order of the dictionary. */
  method WritesToJson(writes: Writes) returns (out: seq<WritesJson>)
    ensures forall k, s :: LastWrite(out, k, s) ==
              if FindWrite(writes, k, s).Some? then Some(FindWrite(writes, k, s).value.(task := s.task)) else None
    ensures forall e, j | e in out && j in e.entries :: Decodable(j.blob)
  {
    out := [];
    var left := writes.Keys;
    while left != {}
      invariant left <= writes.Keys
      invariant forall k, s :: LastWrite(out, k, s) ==
                  if k !in left && FindWrite(writes, k, s).Some?
                  then Some(FindWrite(writes, k, s).value.(task := s.task)) else None
      invariant forall e, j | e in out && j in e.entries :: Decodable(j.blob)
    {
      var k :| k in left;
      var entries := SlotsToJson(writes[k]);
      assert (out + [WritesJson(k, entries)])[..|out|] == out;
      out := out + [WritesJson(k, entries)];
      left := left - {k};
    }
  }

  /** `_blobs_to_json`, in any order of the dictionary. */
  method BlobsToJson(blobs: Blobs) returns (out: seq<ChannelJson>)
    ensures forall k :: LastBlob(out, k) == FindBlob(blobs, k)
    ensures forall e | e in out :: Decodable(e.blob)
  {
    out := [];
    var left := blobs.Keys;
    while left != {}
      invariant left <= blobs.Keys
      invariant forall k :: LastBlob(out, k) == if k in left then None else FindBlob(blobs, k)
      invariant forall e | e in out :: Decodable(e.blob)
    {
      var k :| k in left;
      BlobRoundTrip(blobs[k]);
      assert (out + [ChannelJson(k, EncodeBlob(blobs[k]))])[..|out|] == out;
      out := out + [ChannelJson(k, EncodeBlob(blobs[k]))];
      left := left - {k};
    }
  }

  function WritesOf(writes: seq<WritesJson>, t: Thread): (r: seq<WritesJson>)
    ensures forall e :: e in r <==> e in writes && e.key.thread == t
  {
    if writes == [] then []
    else
      var n := |writes| - 1;
      assert writes == writes[..n] + [writes[n]];
      WritesOf(writes[..n], t) + if writes[n].key.thread == t then [writes[n]] else []
  }

  function BlobsOf(blobs: seq<ChannelJson>, t: Thread): (r: seq<ChannelJson>)
    ensures forall e :: e in r <==> e in blobs && e.key.thread == t
  {
    if blobs == [] then []
    else
      var n := |blobs| - 1;
      assert blobs == blobs[..n] + [blobs[n]];
      BlobsOf(blobs[..n], t) + if blobs[n].key.thread == t then [blobs[n]] else []
  }

  lemma {:induction false} FilterKeepsWrites(writes: seq<WritesJson>, t: Thread, k: WriteKey, s: Slot)
    requires k.thread == t
    ensures LastWrite(WritesOf(writes, t), k, s) == LastWrite(writes, k, s)
  {
    if writes != [] {
      var n := |writes| - 1;
      FilterKeepsWrites(writes[..n], t, k, s);
      var kept := WritesOf(writes[..n], t);
      assert (kept + [writes[n]])[..|kept|] == kept;
      assert kept + [] == kept;
    }
  }

  lemma {:induction false} FilterKeepsBlobs(blobs: seq<ChannelJson>, t: Thread, k: BlobKey)
    requires k.thread == t
    ensures LastBlob(BlobsOf(blobs, t), k) == LastBlob(blobs, k)
  {
    if blobs != [] {
      var n := |blobs| - 1;
      FilterKeepsBlobs(blobs[..n], t, k);
      var kept := BlobsOf(blobs[..n], t);
      assert (kept + [blobs[n]])[..|kept|] == kept;
      assert kept + [] == kept;
    }
  }

  lemma StorageRoundTrip(storage: Storage, t: Thread, ns: Name, c: Name)
    ensures var doc := Document(if t in storage then map[t := NamespacesToJson(storage[t])] else map[], [], []);
            DocSaved(doc, t, ns, c) == FindSaved(storage, t, ns, c)
    ensures t in storage && ns in storage[t] && c in storage[t][ns] ==>
            var j := NamespacesToJson(storage[t])[ns][c]; Decodable(j.checkpoint) && Decodable(j.metadata)
  {
    if t in storage && ns in storage[t] && c in storage[t][ns] {
      BlobRoundTrip(storage[t][ns][c].checkpoint);
      BlobRoundTrip(storage[t][ns][c].metadata);
    }
  }

  /** `_thread_data`: the document of one thread. */
  method ThreadData(m: Memory, t: Thread) returns (doc: Document)
    requires TasksAgree(m)
    ensures OnlyThread(doc, t) && Readable(doc) && Represents(doc, m, t)
  {
    var storage: map<Thread, map<Name, map<Name, SavedJson>>> :=
      if t in m.storage then map[t := NamespacesToJson(m.storage[t])] else map[];
    var writes := WritesToJson(m.writes);
    var blobs := BlobsToJson(m.blobs);
    doc := Document(storage, WritesOf(writes, t), BlobsOf(blobs, t));
    forall ns, c
      ensures DocSaved(doc, t, ns, c) == FindSaved(m.storage, t, ns, c)
    {
      StorageRoundTrip(m.storage, t, ns, c);
    }
    forall ns, c | t in storage && ns in storage[t] && c in storage[t][ns]
      ensures Decodable(storage[t][ns][c].checkpoint) && Decodable(storage[t][ns][c].metadata)
    {
      StorageRoundTrip(m.storage, t, ns, c);
    }
    forall k: WriteKey, s | k.thread == t
      ensures LastWrite(doc.writes, k, s) == FindWrite(m.writes, k, s)
    {
      FilterKeepsWrites(writes, t, k, s);
    }
    forall k: BlobKey | k.thread == t
      ensures LastBlob(doc.blobs, k) == FindBlob(m.blobs, k)
    {
      FilterKeepsBlobs(blobs, t, k);
    }
  }

  /** Decode one thread's namespaces; a namespace without checkpoints is not created. */
  function NamespacesFromJson(namespaces: map<Name, map<Name, SavedJson>>): map<Name, map<Name, Saved>> {
    map ns | ns in namespaces && namespaces[ns] != map[] :: map c | c in namespaces[ns] ::
        DecodeSaved(namespaces[ns][c])
  }

  /** The storage part of `_merge`: each thread of the document replaces that thread in memory. */
  method MergeStorage(storage: Storage, doc: Document) returns (storage': Storage)
    ensures forall t, ns, c :: FindSaved(storage', t, ns, c) ==
              if t in doc.storage then DocSaved(doc, t, ns, c) else FindSaved(storage, t, ns, c)
  {
    storage' := storage;
    var left := doc.storage.Keys;
    while left != {}
      invariant left <= doc.storage.Keys
      invariant forall t, ns, c :: FindSaved(storage', t, ns, c) ==
                  if t in doc.storage && t !in left then DocSaved(doc, t, ns, c) else FindSaved(storage, t, ns, c)
    {
      var t :| t in left;
      storage' := storage'[t := NamespacesFromJson(doc.storage[t])];
      left := left - {t};
    }
  }

  ghost predicate Mentions(writes: seq<WritesJson>, k: WriteKey) {
    exists e | e in writes :: e.key == k
  }

  /** Fold one key's entries into the writes gathered for it so far. */
  method MergeSlots(slots: map<Slot, Write>, entries: seq<SlotJson>) returns (slots': map<Slot, Write>)
    ensures forall s :: (s in slots' <==> s in slots || LastSlot(entries, s).Some?)
    ensures forall s | s in slots' :: slots'[s] ==
              if LastSlot(entries, s).Some? then LastSlot(entries, s).value else slots[s]
  {
    slots' := slots;
    for i := 0 to |entries|
      invariant forall s :: (s in slots' <==> s in slots || LastSlot(entries[..i], s).Some?)
      invariant forall s | s in slots' :: slots'[s] ==
                  if LastSlot(entries[..i], s).Some? then LastSlot(entries[..i], s).value else slots[s]
    {
      var e := entries[i];
      assert entries[..i + 1][..i] == entries[..i];
      slots' := slots'[Slot(e.task, e.idx) := DecodeWrite(e)];
    }
    assert entries[..|entries|] == entries;
  }

  /** The writes of the entries read so far, by key. */
  ghost predicate Gathered(gathered: Writes, entries: seq<WritesJson>) {
    && (forall k :: k in gathered <==> Mentions(entries, k))
    && (forall k, s | k in gathered :: FindWrite(gathered, k, s) == LastWrite(entries, k, s))
  }

  lemma GatherStep(gathered: Writes, entries: seq<WritesJson>, e: WritesJson, slots: map<Slot, Write>)
    requires Gathered(gathered, entries)
    requires var earlier := if e.key in gathered then gathered[e.key] else map[];
             && (forall s :: (s in slots <==> s in earlier || LastSlot(e.entries, s).Some?))
             && (forall s | s in slots :: slots[s] ==
                   if LastSlot(e.entries, s).Some? then LastSlot(e.entries, s).value else earlier[s])
    ensures Gathered(gathered[e.key := slots], entries + [e])
  {
    assert (entries + [e])[..|entries|] == entries;
    NotMentioned(entries, e.key);
    assert forall k :: Mentions(entries + [e], k) <==> Mentions(entries, k) || k == e.key by {
      assert e in entries + [e];
    }
    var after := gathered[e.key := slots];
    forall k, s | k in after ensures FindWrite(after, k, s) == LastWrite(entries + [e], k, s) {
      if k in gathered {
        assert FindWrite(gathered, k, s) == LastWrite(entries, k, s);
      }
    }
  }

  lemma GatherNext(gathered: Writes, entries: seq<WritesJson>, i: nat, slots: map<Slot, Write>)
    requires i < |entries| && Gathered(gathered, entries[..i])
    requires var e := entries[i];
             var earlier := if e.key in gathered then gathered[e.key] else map[];
             && (forall s :: (s in slots <==> s in earlier || LastSlot(e.entries, s).Some?))
             && (forall s | s in slots :: slots[s] ==
                   if LastSlot(e.entries, s).Some? then LastSlot(e.entries, s).value else earlier[s])
    ensures Gathered(gathered[entries[i].key := slots], entries[..i + 1])
  {
    GatherStep(gathered, entries[..i], entries[i], slots);
    assert entries[..i] + [entries[i]] == entries[..i + 1];
  }

  lemma OverrideOne<K, V>(a: map<K, V>, b: map<K, V>, k: K, v: V)
    ensures (a + b)[k := v] == a + b[k := v]
  {
  }

  /** The writes part of `_merge`: a key's entries are gathered over the document, then replace that key in memory. */
  method MergeWrites(writes: Writes, entries: seq<WritesJson>) returns (writes': Writes)
    ensures forall k, s :: FindWrite(writes', k, s) ==
              if Mentions(entries, k) then LastWrite(entries, k, s) else FindWrite(writes, k, s)
  {
    writes' := writes;
    var gathered: Writes := map[];
    for i := 0 to |entries|
      invariant Gathered(gathered, entries[..i])
      invariant writes' == writes + gathered
    {
      var e := entries[i];
      var slots := MergeSlots(if e.key in gathered then gathered[e.key] else map[], e.entries);
      GatherNext(gathered, entries, i, slots);
      OverrideOne(writes, gathered, e.key, slots);
      gathered := gathered[e.key := slots];
      writes' := writes'[e.key := slots];
    }
    assert entries[..|entries|] == entries;
  }

  lemma {:induction false} NotMentioned(entries: seq<WritesJson>, k: WriteKey)
    ensures !Mentions(entries, k) ==> forall s :: LastWrite(entries, k, s) == None
  {
    if entries != [] {
      var n := |entries| - 1;
      assert entries == entries[..n] + [entries[n]];
      NotMentioned(entries[..n], k);
    }
  }

  /** The blobs part of `_merge`. */
  method MergeBlobs(blobs: Blobs, entries: seq<ChannelJson>) returns (blobs': Blobs)
    ensures forall k :: FindBlob(blobs', k) ==
              if LastBlob(entries, k).Some? then LastBlob(entries, k) else FindBlob(blobs, k)
  {
    blobs' := blobs;
    for i := 0 to |entries|
      invariant forall k :: FindBlob(blobs', k) ==
                  if LastBlob(entries[..i], k).Some? then LastBlob(entries[..i], k) else FindBlob(blobs, k)
    {
      assert entries[..i + 1][..i] == entries[..i];
      blobs' := blobs'[entries[i].key := DecodeBlob(entries[i].blob)];
    }
    assert entries[..|entries|] == entries;
  }

  /** What a memory finds after a document was merged into it, whatever threads the document speaks of. */
  ghost predicate MergedInto(m: Memory, doc: Document, m': Memory) {
    && (forall t, ns, c :: FindSaved(m'.storage, t, ns, c) ==
          if t in doc.storage then DocSaved(doc, t, ns, c) else FindSaved(m.storage, t, ns, c))
    && (forall k, s :: FindWrite(m'.writes, k, s) ==
          if Mentions(doc.writes, k) then LastWrite(doc.writes, k, s) else FindWrite(m.writes, k, s))
    && (forall k :: FindBlob(m'.blobs, k) ==
          if LastBlob(doc.blobs, k).Some? then LastBlob(doc.blobs, k) else FindBlob(m.blobs, k))
  }

  method Merge(m: Memory, doc: Document) returns (m': Memory)
    ensures MergedInto(m, doc, m')
  {
    var storage := MergeStorage(m.storage, doc);
    var writes := MergeWrites(m.writes, doc.writes);
    var blobs := MergeBlobs(m.blobs, doc.blobs);
    m' := Memory(storage, writes, blobs);
  }

  /** Merging a thread's document into a memory that knows nothing of the thread gives the thread back. */
  lemma MergeRestoresThread(m: Memory, doc: Document, m': Memory, t: Thread)
    requires OnlyThread(doc, t) && MergedInto(m, doc, m')
    ensures Represents(EMPTY_DOCUMENT, m, t) ==> Represents(doc, m', t)
    ensures forall u | u != t :: Same(m, m', u)
  {
    forall k: WriteKey | k.thread != t ensures !Mentions(doc.writes, k) {
    }
    forall k: BlobKey | k.thread != t ensures LastBlob(doc.blobs, k) == None {
      BlobsOfOthers(doc.blobs, t, k);
    }
    if Represents(EMPTY_DOCUMENT, m, t) {
      forall ns, c ensures DocSaved(doc, t, ns, c) == FindSaved(m'.storage, t, ns, c) {
        assert DocSaved(EMPTY_DOCUMENT, t, ns, c) == FindSaved(m.storage, t, ns, c);
      }
      forall k: WriteKey, s | k.thread == t ensures LastWrite(doc.writes, k, s) == FindWrite(m'.writes, k, s) {
        NotMentioned(doc.writes, k);
        assert LastWrite([], k, s) == FindWrite(m.writes, k, s);
      }
      forall k: BlobKey | k.thread == t ensures LastBlob(doc.blobs, k) == FindBlob(m'.blobs, k) {
        assert LastBlob([], k) == FindBlob(m.blobs, k);
      }
    }
  }

  lemma {:induction false} BlobsOfOthers(blobs: seq<ChannelJson>, t: Thread, k: BlobKey)
    requires forall e | e in blobs :: e.key.thread == t
    requires k.thread != t
    ensures LastBlob(blobs, k) == None
  {
    if blobs != [] {
      BlobsOfOthers(blobs[..|blobs| - 1], t, k);
    }
  }

  // ---------------------------------------------------------------------- directory

  datatype File = File(name: string)

  /** A file holds a whole document, or what an interrupted write left. */
  datatype Content = Whole(doc: Document) | Torn

  type Directory = map<File, Content>

  function TargetFile(t: Thread): File {
    File(TargetName(t.utf8))
  }

  function TempFile(t: Thread): File {
    File(TempName(t.utf8))
  }

  /** Matched by `glob("*.json")`. */
  predicate Loadable(f: File) {
    IsJsonName(f.name)
  }

  lemma FilesDisjoint(a: Thread, b: Thread)
    ensures TargetFile(a) == TargetFile(b) <==> a == b
    ensures Loadable(TargetFile(a)) && !Loadable(TempFile(a)) && TempFile(a) != TargetFile(b)
  {
    FileNamesDisjoint(a.utf8, b.utf8);
  }

  /** Every loadable file is one thread's whole, readable document. */
  ghost predicate Clean(dir: Directory) {
    forall f | f in dir && Loadable(f) :: exists t :: FileOf(dir, f, t)
  }

  ghost predicate FileOf(dir: Directory, f: File, t: Thread)
    requires f in dir
  {
    f == TargetFile(t) && dir[f].Whole? && OnlyThread(dir[f].doc, t) && Readable(dir[f].doc)
  }

  function DocumentOf(dir: Directory, t: Thread): Document {
    if TargetFile(t) in dir && dir[TargetFile(t)].Whole? then dir[TargetFile(t)].doc else EMPTY_DOCUMENT
  }

  /** A saver rebuilt from the directory answers every lookup as m does. */
  ghost predicate Stores(dir: Directory, m: Memory) {
    forall t :: Represents(DocumentOf(dir, t), m, t)
  }

  ghost predicate Lists(dir: Directory, files: seq<File>) {
    && (forall f :: f in files <==> f in dir && Loadable(f))
    && (forall i, j | 0 <= i < j < |files| :: files[i] != files[j])
  }

  // --------------------------------------------------------------------------- loading

  /** A file whose text parses and whose blobs decode. */
  predicate Legible(content: Content) {
    content.Whole? && Readable(content.doc)
  }

  ghost predicate AllLegible(dir: Directory, files: seq<File>) {
    forall f | f in files :: f in dir && Legible(dir[f])
  }

  /** What a run of merges finds: the last document that speaks of a thread, a write key or a blob decides. */
  ghost function LoadedSaved(dir: Directory, files: seq<File>, t: Thread, ns: Name, c: Name): Option<Saved>
    requires AllLegible(dir, files)
  {
    if files == [] then None
    else
      var doc := dir[files[|files| - 1]].doc;
      if t in doc.storage then DocSaved(doc, t, ns, c) else LoadedSaved(dir, files[..|files| - 1], t, ns, c)
  }

  ghost function LoadedWrite(dir: Directory, files: seq<File>, k: WriteKey, s: Slot): Option<Write>
    requires AllLegible(dir, files)
  {
    if files == [] then None
    else
      var doc := dir[files[|files| - 1]].doc;
      if Mentions(doc.writes, k) then LastWrite(doc.writes, k, s) else LoadedWrite(dir, files[..|files| - 1], k, s)
  }

  ghost function LoadedBlob(dir: Directory, files: seq<File>, k: BlobKey): Option<Blob>
    requires AllLegible(dir, files)
  {
    if files == [] then None
    else
      var doc := dir[files[|files| - 1]].doc;
      if LastBlob(doc.blobs, k).Some? then LastBlob(doc.blobs, k) else LoadedBlob(dir, files[..|files| - 1], k)
  }

  ghost predicate Loaded(dir: Directory, files: seq<File>, m: Memory)
    requires AllLegible(dir, files)
  {
    && (forall t, ns, c :: FindSaved(m.storage, t, ns, c) == LoadedSaved(dir, files, t, ns, c))
    && (forall k, s :: FindWrite(m.writes, k, s) == LoadedWrite(dir, files, k, s))
    && (forall k :: FindBlob(m.blobs, k) == LoadedBlob(dir, files, k))
  }

  /** The last listed document that speaks of a thread, a write key or a blob decides what is loaded of it. */
  lemma {:induction false} LastDocumentDecides(dir: Directory, files: seq<File>, i: nat)
    requires AllLegible(dir, files) && i < |files|
    ensures var doc := dir[files[i]].doc;
            && (forall t, ns, c | t in doc.storage && (forall j | i < j < |files| :: t !in dir[files[j]].doc.storage) ::
                  LoadedSaved(dir, files, t, ns, c) == DocSaved(doc, t, ns, c))
            && (forall k, s | Mentions(doc.writes, k)
                              && (forall j | i < j < |files| :: !Mentions(dir[files[j]].doc.writes, k)) ::
                  LoadedWrite(dir, files, k, s) == LastWrite(doc.writes, k, s))
            && (forall k | LastBlob(doc.blobs, k).Some?
                           && (forall j | i < j < |files| :: LastBlob(dir[files[j]].doc.blobs, k).None?) ::
                  LoadedBlob(dir, files, k) == LastBlob(doc.blobs, k))
    decreases |files|
  {
    var n := |files| - 1;
    if i < n {
      assert forall j | 0 <= j < n :: files[..n][j] == files[j];
      assert forall f | f in files[..n] :: f in files;
      LastDocumentDecides(dir, files[..n], i);
      assert files[n] in files;
    }
  }

  lemma LoadStep(dir: Directory, files: seq<File>, i: nat, m: Memory, m': Memory)
    requires i < |files| && AllLegible(dir, files[..i + 1]) && AllLegible(dir, files[..i])
    requires Loaded(dir, files[..i], m) && MergedInto(m, dir[files[i]].doc, m')
    ensures Loaded(dir, files[..i + 1], m')
  {
    TakeOneMore(files, i);
  }

  /**
   * `_load` on any directory, merging the listed files in the given order: it fails exactly when a file cannot be
   * read, and otherwise the last document that speaks of something decides. On a clean directory the order is moot.
   */
  method Load(dir: Directory, files: seq<File>) returns (r: Option<Memory>)
    requires forall f | f in files :: f in dir
    ensures r.None? <==> !AllLegible(dir, files)
    ensures r.Some? ==> Loaded(dir, files, r.value)
    ensures Clean(dir) && Lists(dir, files) ==> r.Some? && Stores(dir, r.value)
  {
    var m := EMPTY_MEMORY;
    for i := 0 to |files|
      invariant AllLegible(dir, files[..i]) && Loaded(dir, files[..i], m)
    {
      assert files[i] in files;
      TakeOneMore(files, i);
      if !Legible(dir[files[i]]) {
        if Clean(dir) && Lists(dir, files) {
          CleanIsLegible(dir, files);
          assert false;
        }
        return None;
      }
      var merged := Merge(m, dir[files[i]].doc);
      LoadStep(dir, files, i, m, merged);
      m := merged;
    }
    assert files[..|files|] == files;
    r := Some(m);
    if Clean(dir) && Lists(dir, files) {
      CleanLoads(dir, files, m);
    }
  }

  lemma CleanIsLegible(dir: Directory, files: seq<File>)
    requires Clean(dir) && Lists(dir, files)
    ensures AllLegible(dir, files)
  {
    forall f | f in files ensures f in dir && Legible(dir[f]) {
      var t :| FileOf(dir, f, t);
    }
  }

  ghost function DocumentAmong(dir: Directory, files: seq<File>, t: Thread): Document {
    if TargetFile(t) in files then DocumentOf(dir, t) else EMPTY_DOCUMENT
  }

  /** A listed file of a clean directory: whose it is, and what that means for thread t. */
  lemma OwnerOf(dir: Directory, files: seq<File>, i: nat, t: Thread) returns (owner: Thread)
    requires Clean(dir) && Lists(dir, files) && i < |files|
    ensures files[i] in dir && FileOf(dir, files[i], owner)
    ensures owner == t ==> DocumentAmong(dir, files[..i], t) == EMPTY_DOCUMENT
                           && DocumentAmong(dir, files[..i + 1], t) == dir[files[i]].doc
    ensures owner != t ==> DocumentAmong(dir, files[..i + 1], t) == DocumentAmong(dir, files[..i], t)
  {
    assert files[i] in files;
    owner :| FileOf(dir, files[i], owner);
    FilesDisjoint(t, owner);
    NextFile(dir, files, i, t);
  }

  lemma LegiblePrefix(dir: Directory, files: seq<File>, i: nat)
    requires AllLegible(dir, files) && i <= |files|
    ensures AllLegible(dir, files[..i])
  {
  }

  /** Of a clean directory's files only a thread's own one speaks of it: its checkpoints, writes and blobs. */
  lemma {:induction false} OwnSavedDecides(dir: Directory, files: seq<File>, i: nat, t: Thread, ns: Name, c: Name)
    requires Clean(dir) && Lists(dir, files) && AllLegible(dir, files) && i <= |files| && AllLegible(dir, files[..i])
    ensures LoadedSaved(dir, files[..i], t, ns, c) == DocSaved(DocumentAmong(dir, files[..i], t), t, ns, c)
    decreases i
  {
    if i > 0 {
      LegiblePrefix(dir, files, i - 1);
      OwnSavedDecides(dir, files, i - 1, t, ns, c);
      TakeOneMore(files, i - 1);
      var owner := OwnerOf(dir, files, i - 1, t);
    }
  }

  lemma {:induction false} OwnWriteDecides(dir: Directory, files: seq<File>, i: nat, k: WriteKey, s: Slot)
    requires Clean(dir) && Lists(dir, files) && AllLegible(dir, files) && i <= |files| && AllLegible(dir, files[..i])
    ensures LoadedWrite(dir, files[..i], k, s) == LastWrite(DocumentAmong(dir, files[..i], k.thread).writes, k, s)
    decreases i
  {
    if i > 0 {
      LegiblePrefix(dir, files, i - 1);
      OwnWriteDecides(dir, files, i - 1, k, s);
      TakeOneMore(files, i - 1);
      var owner := OwnerOf(dir, files, i - 1, k.thread);
      NotMentioned(dir[files[i - 1]].doc.writes, k);
    }
  }

  lemma {:induction false} OwnBlobDecides(dir: Directory, files: seq<File>, i: nat, k: BlobKey)
    requires Clean(dir) && Lists(dir, files) && AllLegible(dir, files) && i <= |files| && AllLegible(dir, files[..i])
    ensures LoadedBlob(dir, files[..i], k) == LastBlob(DocumentAmong(dir, files[..i], k.thread).blobs, k)
    decreases i
  {
    if i > 0 {
      LegiblePrefix(dir, files, i - 1);
      OwnBlobDecides(dir, files, i - 1, k);
      TakeOneMore(files, i - 1);
      var owner := OwnerOf(dir, files, i - 1, k.thread);
      if owner != k.thread {
        BlobsOfOthers(dir[files[i - 1]].doc.blobs, owner, k);
      }
    }
  }

  lemma NextFile(dir: Directory, files: seq<File>, i: nat, t: Thread)
    requires Lists(dir, files) && i < |files|
    ensures files[i] !in files[..i]
    ensures DocumentAmong(dir, files[..i + 1], t) ==
            if TargetFile(t) == files[i] then DocumentOf(dir, t) else DocumentAmong(dir, files[..i], t)
    ensures TargetFile(t) == files[i] ==> DocumentAmong(dir, files[..i], t) == EMPTY_DOCUMENT
  {
    TakeOneMore(files, i);
  }

  lemma CleanLoads(dir: Directory, files: seq<File>, m: Memory)
    requires Clean(dir) && Lists(dir, files) && AllLegible(dir, files) && Loaded(dir, files, m)
    ensures Stores(dir, m)
  {
    forall t ensures Represents(DocumentOf(dir, t), m, t) {
      ThreadLoads(dir, files, m, t);
    }
  }

  lemma ThreadLoads(dir: Directory, files: seq<File>, m: Memory, t: Thread)
    requires Clean(dir) && Lists(dir, files) && AllLegible(dir, files) && Loaded(dir, files, m)
    ensures Represents(DocumentOf(dir, t), m, t)
  {
    assert files[..|files|] == files;
    FilesDisjoint(t, t);
    var doc := DocumentOf(dir, t);
    assert DocumentAmong(dir, files, t) == doc;
    forall ns, c ensures DocSaved(doc, t, ns, c) == FindSaved(m.storage, t, ns, c) {
      OwnSavedDecides(dir, files, |files|, t, ns, c);
    }
    forall k: WriteKey, s | k.thread == t ensures LastWrite(doc.writes, k, s) == FindWrite(m.writes, k, s) {
      OwnWriteDecides(dir, files, |files|, k, s);
    }
    forall k: BlobKey | k.thread == t ensures LastBlob(doc.blobs, k) == FindBlob(m.blobs, k) {
      OwnBlobDecides(dir, files, |files|, k);
    }
  }

  lemma SameRepresents(doc: Document, m: Memory, m': Memory, t: Thread)
    requires Represents(doc, m, t) && Same(m, m', t)
    ensures Represents(doc, m', t)
  {
    forall ns, c ensures DocSaved(doc, t, ns, c) == FindSaved(m'.storage, t, ns, c) {
      assert DocSaved(doc, t, ns, c) == FindSaved(m.storage, t, ns, c);
    }
  }

  /** Two memories the same directory stores answer every lookup alike: the merge order cannot matter. */
  lemma StoredMemoriesAgree(dir: Directory, m: Memory, m': Memory)
    requires Stores(dir, m) && Stores(dir, m')
    ensures SameLookups(m, m')
  {
    forall t ensures Same(m, m', t) {
      assert Represents(DocumentOf(dir, t), m, t) && Represents(DocumentOf(dir, t), m', t);
      forall ns, c ensures FindSaved(m.storage, t, ns, c) == FindSaved(m'.storage, t, ns, c) {
        assert DocSaved(DocumentOf(dir, t), t, ns, c) == FindSaved(m.storage, t, ns, c);
      }
      forall k: WriteKey, s | k.thread == t ensures FindWrite(m.writes, k, s) == FindWrite(m'.writes, k, s) {
        assert LastWrite(DocumentOf(dir, t).writes, k, s) == FindWrite(m.writes, k, s);
      }
    }
  }

  // --------------------------------------------------------------- operations and crashes

  datatype ChannelVersion = ChannelVersion(channel: Name, version: Name)

  /** A pending write; special channels carry their own negative index. */
  datatype PendingWrite = PendingWrite(channel: Name, special: Option<int>, blob: Blob)

  datatype Op =
    | Put(thread: Thread, ns: Name, checkpoint: Name, saved: Saved, channels: map<ChannelVersion, Blob>)
    | PutWrites(key: WriteKey, task: Name, path: Name, pending: seq<PendingWrite>)
    | DeleteThread(thread: Thread)

  function OpThread(op: Op): Thread {
    if op.PutWrites? then op.key.thread else op.thread
  }

  function PutSaved(storage: Storage, t: Thread, ns: Name, c: Name, saved: Saved): Storage {
    var namespaces := if t in storage then storage[t] else map[];
    var checkpoints := if ns in namespaces then namespaces[ns] else map[];
    storage[t := namespaces[ns := checkpoints[c := saved]]]
  }

  function ChannelBlobs(t: Thread, ns: Name, channels: map<ChannelVersion, Blob>): Blobs {
    map v | v in channels :: BlobKey(t, ns, v.channel, v.version) := channels[v]
  }

  /** Regular slots are written once; special slots are overwritten. */
  function PutSlots(slots: map<Slot, Write>, task: Name, path: Name, pending: seq<PendingWrite>): map<Slot, Write> {
    if pending == [] then slots
    else
      var n := |pending| - 1;
      var rest, w := PutSlots(slots, task, path, pending[..n]), pending[n];
      var s := Slot(task, if w.special.Some? then w.special.value else n);
      if s.idx >= 0 && s in rest then rest else rest[s := Write(task, w.channel, w.blob, path)]
  }

  /** The update the in-memory saver makes. */
  function ApplyOp(m: Memory, op: Op): Memory {
    match op
    case Put(t, ns, c, saved, channels) =>
      m.(storage := PutSaved(m.storage, t, ns, c, saved),
         blobs := m.blobs + ChannelBlobs(t, ns, channels))
    case PutWrites(k, task, path, pending) =>
      m.(writes := m.writes[k := PutSlots(if k in m.writes then m.writes[k] else map[], task, path, pending)])
    case DeleteThread(t) =>
      Memory(m.storage - {t},
             map k | k in m.writes && k.thread != t :: m.writes[k],
             map k | k in m.blobs && k.thread != t :: m.blobs[k])
  }

  /** Adding pending writes keeps every stored task equal to its slot's task. */
  lemma {:induction false} PutSlotsKeepsTasks(
      slots: map<Slot, Write>, task: Name, path: Name, pending: seq<PendingWrite>)
    requires forall s | s in slots :: slots[s].task == s.task
    ensures var after := PutSlots(slots, task, path, pending); forall s | s in after :: after[s].task == s.task
  {
    if pending != [] {
      PutSlotsKeepsTasks(slots, task, path, pending[..|pending| - 1]);
    }
  }

  /** The pending write at n goes to this index: its own if the channel is special, else its position. */
  ghost predicate GoesTo(pending: seq<PendingWrite>, n: int, idx: int) {
    0 <= n < |pending| && idx == match pending[n].special case Some(own) => own case None => n
  }

  ghost predicate FirstFor(pending: seq<PendingWrite>, n: int, idx: int) {
    GoesTo(pending, n, idx) && forall k | GoesTo(pending, k, idx) :: n <= k
  }

  ghost predicate LastFor(pending: seq<PendingWrite>, n: int, idx: int) {
    GoesTo(pending, n, idx) && forall k | GoesTo(pending, k, idx) :: k <= n
  }

  ghost predicate Written(found: Option<Write>, task: Name, path: Name, w: PendingWrite) {
    found == Some(Write(task, w.channel, w.blob, path))
  }

  /**
   * What a lookup finds after pending writes: other tasks' slots are untouched, a regular slot keeps what it held
   * or else gets the first write for it, and a special slot gets the last.
   */
  ghost predicate SlotAfter(
      before: Option<Write>, after: Option<Write>, s: Slot, task: Name, path: Name, pending: seq<PendingWrite>)
  {
    && (s.task != task || (forall n :: !GoesTo(pending, n, s.idx)) ==> after == before)
    && (s.task == task && s.idx >= 0 && before.Some? ==> after == before)
    && (s.task == task && s.idx >= 0 && before.None? ==>
          forall n | FirstFor(pending, n, s.idx) :: Written(after, task, path, pending[n]))
    && (s.task == task && s.idx < 0 ==>
          forall n | LastFor(pending, n, s.idx) :: Written(after, task, path, pending[n]))
  }

  function SlotAt(slots: map<Slot, Write>, s: Slot): Option<Write> {
    if s in slots then Some(slots[s]) else None
  }

  lemma GoesToPrefix(pending: seq<PendingWrite>, idx: int)
    requires pending != []
    ensures var n := |pending| - 1;
            && (forall k :: GoesTo(pending[..n], k, idx) <==> k < n && GoesTo(pending, k, idx))
            && (forall k | GoesTo(pending, k, idx) :: k <= n)
  {
  }

  /** What the last pending write does to a slot. */
  lemma LastPutSlot(slots: map<Slot, Write>, task: Name, path: Name, pending: seq<PendingWrite>, s: Slot)
    requires pending != []
    ensures var n := |pending| - 1;
            var earlier, after :=
              SlotAt(PutSlots(slots, task, path, pending[..n]), s), SlotAt(PutSlots(slots, task, path, pending), s);
            if s.task == task && GoesTo(pending, n, s.idx) && (s.idx < 0 || earlier.None?)
            then Written(after, task, path, pending[n]) else after == earlier
  {
  }

  lemma SlotStep(before: Option<Write>, earlier: Option<Write>, after: Option<Write>, s: Slot, task: Name, path: Name,
                 pending: seq<PendingWrite>)
    requires pending != [] && SlotAfter(before, earlier, s, task, path, pending[..|pending| - 1])
    requires var n := |pending| - 1;
             if s.task == task && GoesTo(pending, n, s.idx) && (s.idx < 0 || earlier.None?)
             then Written(after, task, path, pending[n]) else after == earlier
    ensures SlotAfter(before, after, s, task, path, pending)
  {
    var n := |pending| - 1;
    GoesToPrefix(pending, s.idx);
    if s.task == task && s.idx >= 0 && before.None? {
      forall k | FirstFor(pending, k, s.idx) ensures Written(after, task, path, pending[k]) {
        assert k < n ==> FirstFor(pending[..n], k, s.idx);
      }
    }
    if s.task == task && s.idx < 0 {
      forall k | LastFor(pending, k, s.idx) ensures Written(after, task, path, pending[k]) {
        assert k < n ==> LastFor(pending[..n], k, s.idx);
      }
    }
  }

  lemma {:induction false} PutSlotsLookup(
      slots: map<Slot, Write>, task: Name, path: Name, pending: seq<PendingWrite>, s: Slot)
    ensures SlotAfter(SlotAt(slots, s), SlotAt(PutSlots(slots, task, path, pending), s), s, task, path, pending)
  {
    if pending != [] {
      var front := pending[..|pending| - 1];
      PutSlotsLookup(slots, task, path, front, s);
      LastPutSlot(slots, task, path, pending, s);
      SlotStep(SlotAt(slots, s), SlotAt(PutSlots(slots, task, path, front), s),
               SlotAt(PutSlots(slots, task, path, pending), s), s, task, path, pending);
    }
  }

  /** An operation changes no other thread. */
  lemma OpTouchesOneThread(m: Memory, op: Op, t: Thread)
    requires t != OpThread(op)
    ensures Same(m, ApplyOp(m, op), t)
  {
  }

  lemma OpKeepsTasksAgree(m: Memory, op: Op)
    requires TasksAgree(m)
    ensures TasksAgree(ApplyOp(m, op))
  {
    if op.PutWrites? {
      var slots := if op.key in m.writes then m.writes[op.key] else map[];
      forall s | s in slots ensures slots[s].task == s.task {
        assert FindWrite(m.writes, op.key, s).Some?;
      }
      PutSlotsKeepsTasks(slots, op.task, op.path, op.pending);
    }
    var m' := ApplyOp(m, op);
    forall k, s | FindWrite(m'.writes, k, s).Some?
      ensures FindWrite(m'.writes, k, s).value.task == s.task
    {
      if !(op.PutWrites? && k == op.key) {
        assert FindWrite(m'.writes, k, s) == FindWrite(m.writes, k, s);
      }
    }
  }

  /** An operation cannot tell apart memories with the same lookups. */
  lemma OpRespectsLookups(m: Memory, m': Memory, op: Op)
    requires SameLookups(m, m')
    ensures SameLookups(ApplyOp(m, op), ApplyOp(m', op))
  {
    forall t ensures Same(ApplyOp(m, op), ApplyOp(m', op), t) {
      assert Same(m, m', t);
      match op {
        case Put(_, _, _, _, _) => PutRespectsLookups(m, m', op, t);
        case PutWrites(_, _, _, _) => PutWritesRespectsLookups(m, m', op, t);
        case DeleteThread(_) => DeleteRespectsLookups(m, m', op, t);
      }
    }
  }

  lemma PutSavedLookup(storage: Storage, op: Op, t: Thread, ns: Name, c: Name)
    requires op.Put?
    ensures FindSaved(PutSaved(storage, op.thread, op.ns, op.checkpoint, op.saved), t, ns, c) ==
            if t == op.thread && ns == op.ns && c == op.checkpoint then Some(op.saved) else FindSaved(storage, t, ns, c)
  {
  }

  lemma PutBlobLookup(m: Memory, op: Op, k: BlobKey)
    requires op.Put?
    ensures FindBlob(ApplyOp(m, op).blobs, k) ==
            if k.thread == op.thread && k.ns == op.ns && ChannelVersion(k.channel, k.version) in op.channels
            then Some(op.channels[ChannelVersion(k.channel, k.version)]) else FindBlob(m.blobs, k)
  {
    var added := ChannelBlobs(op.thread, op.ns, op.channels);
    var v := ChannelVersion(k.channel, k.version);
    if k.thread == op.thread && k.ns == op.ns && v in op.channels {
      assert BlobKey(op.thread, op.ns, v.channel, v.version) == k;
      assert k in added && added[k] == op.channels[v];
    }
  }

  /** What every lookup of a pending write finds after the operation. */
  lemma PutWritesLookup(m: Memory, op: Op, k: WriteKey, s: Slot)
    requires op.PutWrites?
    ensures var before, after := FindWrite(m.writes, k, s), FindWrite(ApplyOp(m, op).writes, k, s);
            if k == op.key then SlotAfter(before, after, s, op.task, op.path, op.pending) else after == before
  {
    if k == op.key {
      PutSlotsLookup(if k in m.writes then m.writes[k] else map[], op.task, op.path, op.pending, s);
    }
  }

  lemma PutRespectsLookups(m: Memory, m': Memory, op: Op, t: Thread)
    requires op.Put? && Same(m, m', t)
    ensures Same(ApplyOp(m, op), ApplyOp(m', op), t)
  {
    var a, b := ApplyOp(m, op), ApplyOp(m', op);
    forall ns, c ensures FindSaved(a.storage, t, ns, c) == FindSaved(b.storage, t, ns, c) {
      PutSavedLookup(m.storage, op, t, ns, c);
      PutSavedLookup(m'.storage, op, t, ns, c);
    }
    forall k: BlobKey | k.thread == t ensures FindBlob(a.blobs, k) == FindBlob(b.blobs, k) {
      PutBlobLookup(m, op, k);
      PutBlobLookup(m', op, k);
    }
  }

  lemma DeleteRespectsLookups(m: Memory, m': Memory, op: Op, t: Thread)
    requires op.DeleteThread? && Same(m, m', t)
    ensures Same(ApplyOp(m, op), ApplyOp(m', op), t)
  {
    if t == op.thread {
      DeleteForgets(m, t);
      DeleteForgets(m', t);
      var a, b := ApplyOp(m, op), ApplyOp(m', op);
      forall ns, c ensures FindSaved(a.storage, t, ns, c) == FindSaved(b.storage, t, ns, c) {
        assert DocSaved(EMPTY_DOCUMENT, t, ns, c) == FindSaved(a.storage, t, ns, c);
      }
    } else {
      OpTouchesOneThread(m, op, t);
      OpTouchesOneThread(m', op, t);
      var a, b := ApplyOp(m, op), ApplyOp(m', op);
      forall ns, c ensures FindSaved(a.storage, t, ns, c) == FindSaved(b.storage, t, ns, c) {
        assert FindSaved(m.storage, t, ns, c) == FindSaved(m'.storage, t, ns, c);
      }
      forall k: WriteKey, s | k.thread == t ensures FindWrite(a.writes, k, s) == FindWrite(b.writes, k, s) {
        assert FindWrite(m.writes, k, s) == FindWrite(m'.writes, k, s);
      }
      forall k: BlobKey | k.thread == t ensures FindBlob(a.blobs, k) == FindBlob(b.blobs, k) {
        assert FindBlob(m.blobs, k) == FindBlob(m'.blobs, k);
      }
    }
  }

  /** After deleting a thread no lookup finds anything of it. */
  lemma DeleteForgets(m: Memory, t: Thread)
    ensures Represents(EMPTY_DOCUMENT, ApplyOp(m, DeleteThread(t)), t)
  {
  }

  lemma SameSlots(m: Memory, m': Memory, key: WriteKey)
    requires Same(m, m', key.thread)
    ensures (if key in m.writes then m.writes[key] else map[]) == if key in m'.writes then m'.writes[key] else map[]
  {
    var x := if key in m.writes then m.writes[key] else map[];
    var y := if key in m'.writes then m'.writes[key] else map[];
    forall s ensures s in x <==> s in y ensures s in x ==> x[s] == y[s] {
      assert FindWrite(m.writes, key, s) == FindWrite(m'.writes, key, s);
    }
  }

  lemma PutWritesRespectsLookups(m: Memory, m': Memory, op: Op, t: Thread)
    requires op.PutWrites? && Same(m, m', t)
    ensures Same(ApplyOp(m, op), ApplyOp(m', op), t)
  {
    if op.key.thread == t {
      SameSlots(m, m', op.key);
    }
    var a, b := ApplyOp(m, op), ApplyOp(m', op);
    forall k: WriteKey, s | k.thread == t ensures FindWrite(a.writes, k, s) == FindWrite(b.writes, k, s) {
      assert FindWrite(m.writes, k, s) == FindWrite(m'.writes, k, s);
    }
  }

  datatype DiskStep =
    | WriteTemp(file: File, doc: Document)
    | Rename(source: File, target: File)
    | Unlink(file: File)

  function ApplyStep(dir: Directory, step: DiskStep): Directory {
    match step
    case WriteTemp(f, doc) => dir[f := Whole(doc)]
    case Rename(f, g) => if f in dir then (dir - {f})[g := dir[f]] else dir
    case Unlink(f) => dir - {f}
  }

  function ApplySteps(dir: Directory, steps: seq<DiskStep>): Directory {
    if steps == [] then dir else ApplyStep(ApplySteps(dir, steps[..|steps| - 1]), steps[|steps| - 1])
  }

  /** The disk steps that flush t: write a temporary and rename it, or unlink when nothing is left of t. */
  ghost predicate FlushSteps(m: Memory, t: Thread, steps: seq<DiskStep>) {
    || (steps == [Unlink(TargetFile(t))] && Represents(EMPTY_DOCUMENT, m, t))
    || (&& |steps| == 2 && steps[0].WriteTemp? && steps[0].file == TempFile(t)
        && steps[1] == Rename(TempFile(t), TargetFile(t))
        && OnlyThread(steps[0].doc, t) && Readable(steps[0].doc) && Represents(steps[0].doc, m, t))
  }

  /** What a crash can leave: some whole steps, and possibly a torn temporary. */
  ghost predicate CrashLeaves(dir: Directory, steps: seq<DiskStep>, dir': Directory) {
    exists k | 0 <= k <= |steps| :: CrashAfter(dir, steps, k, dir')
  }

  ghost predicate CrashAfter(dir: Directory, steps: seq<DiskStep>, k: nat, dir': Directory)
    requires k <= |steps|
  {
    || dir' == ApplySteps(dir, steps[..k])
    || (k < |steps| && steps[k].WriteTemp? && dir' == ApplySteps(dir, steps[..k])[steps[k].file := Torn])
  }

  /** Changing a file that is never loaded changes nothing a restart can see. */
  lemma TemporariesAreInvisible(dir: Directory, t: Thread, content: Content, m: Memory)
    requires Clean(dir) && Stores(dir, m)
    ensures Clean(dir[TempFile(t) := content]) && Stores(dir[TempFile(t) := content], m)
  {
    var dir' := dir[TempFile(t) := content];
    FilesDisjoint(t, t);
    forall f | f in dir' && Loadable(f) ensures exists u :: FileOf(dir', f, u) {
      var u :| FileOf(dir, f, u);
      assert FileOf(dir', f, u);
    }
    forall u ensures Represents(DocumentOf(dir', u), m, u) {
      FilesDisjoint(t, u);
      assert DocumentOf(dir', u) == DocumentOf(dir, u);
    }
  }

  /** Replacing t's document by one that represents the new memory stores the new memory. */
  lemma TargetHoldsNewMemory(dir: Directory, m: Memory, m': Memory, t: Thread, dir': Directory)
    requires Clean(dir) && Stores(dir, m) && forall u | u != t :: Same(m, m', u)
    requires forall f | f != TargetFile(t) && f != TempFile(t) ::
        (f in dir <==> f in dir') && (f in dir ==> dir[f] == dir'[f])
    requires TargetFile(t) in dir' ==> FileOf(dir', TargetFile(t), t)
    requires Represents(DocumentOf(dir', t), m', t)
    ensures Clean(dir') && Stores(dir', m')
  {
    FilesDisjoint(t, t);
    forall f | f in dir' && Loadable(f) ensures exists u :: FileOf(dir', f, u) {
      if f == TargetFile(t) {
        assert FileOf(dir', f, t);
      } else {
        var u :| FileOf(dir, f, u);
        assert FileOf(dir', f, u);
      }
    }
    forall u ensures Represents(DocumentOf(dir', u), m', u) {
      if u != t {
        FilesDisjoint(u, t);
        FilesDisjoint(t, u);
        assert DocumentOf(dir', u) == DocumentOf(dir, u);
        assert Represents(DocumentOf(dir, u), m, u);
        SameRepresents(DocumentOf(dir, u), m, m', u);
      }
    }
  }

  lemma OneDiskStep(dir: Directory, a: DiskStep)
    ensures ApplySteps(dir, [a]) == ApplyStep(dir, a)
  {
    assert [a][..0] == [];
  }

  lemma TwoDiskSteps(dir: Directory, a: DiskStep, b: DiskStep)
    ensures ApplySteps(dir, [a, b]) == ApplyStep(ApplyStep(dir, a), b)
  {
    assert [a, b][..1] == [a];
    OneDiskStep(dir, a);
  }

  /** A finished flush stores the new memory. */
  lemma FlushStores(dir: Directory, m: Memory, m': Memory, t: Thread, steps: seq<DiskStep>)
    requires Clean(dir) && Stores(dir, m) && forall u | u != t :: Same(m, m', u)
    requires FlushSteps(m', t, steps)
    ensures Clean(ApplySteps(dir, steps)) && Stores(ApplySteps(dir, steps), m')
  {
    FilesDisjoint(t, t);
    if |steps| == 1 {
      OneDiskStep(dir, steps[0]);
      TargetHoldsNewMemory(dir, m, m', t, dir - {TargetFile(t)});
    } else {
      assert steps == [steps[0], steps[1]];
      TwoDiskSteps(dir, steps[0], steps[1]);
      var whole := Whole(steps[0].doc);
      var dir' := (dir[TempFile(t) := whole] - {TempFile(t)})[TargetFile(t) := whole];
      assert ApplySteps(dir, steps) == dir';
      TargetHoldsNewMemory(dir, m, m', t, dir');
    }
  }

  /** A crash at any point leaves a directory that restores all of the old memory or all of the new one. */
  lemma CrashIsAtomic(dir: Directory, m: Memory, m': Memory, t: Thread, steps: seq<DiskStep>, dir': Directory)
    requires Clean(dir) && Stores(dir, m) && forall u | u != t :: Same(m, m', u)
    requires FlushSteps(m', t, steps) && CrashLeaves(dir, steps, dir')
    ensures Clean(dir') && (Stores(dir', m) || Stores(dir', m'))
  {
    var k :| 0 <= k <= |steps| && CrashAfter(dir, steps, k, dir');
    if k == |steps| {
      assert steps[..k] == steps;
      FlushStores(dir, m, m', t, steps);
    } else if k == 0 {
      assert steps[..0] == [];
      if dir' != dir {
        TemporariesAreInvisible(dir, t, Torn, m);
      }
    } else {
      assert k == 1 && steps[..k] == [steps[0]];
      OneDiskStep(dir, steps[0]);
      TemporariesAreInvisible(dir, t, Whole(steps[0].doc), m);
    }
  }

  // ------------------------------------------------------------------------ whole runs

  datatype State = State(mem: Memory, dir: Directory)

  /** One operation, either completed or cut short by a crash and followed by a restart. */
  datatype Event = Event(op: Op, crashed: bool)

  ghost predicate Valid(s: State) {
    Clean(s.dir) && Stores(s.dir, s.mem) && TasksAgree(s.mem)
  }

  ghost predicate Step(s: State, e: Event, s': State) {
    exists steps :: FlushSteps(ApplyOp(s.mem, e.op), OpThread(e.op), steps) && StepVia(s, e, s', steps)
  }

  ghost predicate StepVia(s: State, e: Event, s': State, steps: seq<DiskStep>) {
    if e.crashed
    then CrashLeaves(s.dir, steps, s'.dir) && Stores(s'.dir, s'.mem)
    else s'.mem == ApplyOp(s.mem, e.op) && s'.dir == ApplySteps(s.dir, steps)
  }

  lemma LookupsCarryTasksAgree(m: Memory, m': Memory)
    requires TasksAgree(m) && SameLookups(m, m')
    ensures TasksAgree(m')
  {
    forall k, s | FindWrite(m'.writes, k, s).Some?
      ensures FindWrite(m'.writes, k, s).value.task == s.task
    {
      assert Same(m, m', k.thread);
      assert FindWrite(m.writes, k, s) == FindWrite(m'.writes, k, s);
    }
  }

  /** Every step keeps memory and directory in agreement; a crashed operation happened entirely or not at all. */
  lemma StepIsAtomic(s: State, e: Event, s': State)
    requires Valid(s) && Step(s, e, s')
    ensures Valid(s')
    ensures !e.crashed ==> s'.mem == ApplyOp(s.mem, e.op)
    ensures SameLookups(s'.mem, ApplyOp(s.mem, e.op)) || (e.crashed && SameLookups(s'.mem, s.mem))
  {
    var m', t := ApplyOp(s.mem, e.op), OpThread(e.op);
    var steps :| FlushSteps(m', t, steps) && StepVia(s, e, s', steps);
    forall u | u != t ensures Same(s.mem, m', u) {
      OpTouchesOneThread(s.mem, e.op, u);
    }
    OpKeepsTasksAgree(s.mem, e.op);
    if e.crashed {
      CrashIsAtomic(s.dir, s.mem, m', t, steps, s'.dir);
      var stored := if Stores(s'.dir, s.mem) then s.mem else m';
      StoredMemoriesAgree(s'.dir, s'.mem, stored);
      StoredMemoriesAgree(s'.dir, stored, s'.mem);
      LookupsCarryTasksAgree(stored, s'.mem);
    } else {
      FlushStores(s.dir, s.mem, m', t, steps);
    }
  }

  /** The operations that took effect, applied in order. */
  ghost function Replay(m: Memory, events: seq<Event>, applied: seq<bool>): Memory
    requires |applied| == |events|
  {
    if events == [] then m
    else
      var n := |events| - 1;
      var rest := Replay(m, events[..n], applied[..n]);
      if applied[n] then ApplyOp(rest, events[n].op) else rest
  }

  ghost predicate IsRun(states: seq<State>, events: seq<Event>) {
    |states| == |events| + 1 && forall i | 0 <= i < |events| :: Step(states[i], events[i], states[i + 1])
  }

  /** One more event keeps the memory in step with the replay of what took effect. */
  lemma ReplayStep(s: State, e: Event, s': State, target: Memory) returns (took: bool)
    requires Valid(s) && Step(s, e, s') && SameLookups(s.mem, target)
    ensures Valid(s') && (!e.crashed ==> took)
    ensures SameLookups(s'.mem, if took then ApplyOp(target, e.op) else target)
  {
    StepIsAtomic(s, e, s');
    took := SameLookups(s'.mem, ApplyOp(s.mem, e.op));
    OpRespectsLookups(s.mem, target, e.op);
    if took {
      SameTransitive(s'.mem, ApplyOp(s.mem, e.op), ApplyOp(target, e.op));
    } else {
      SameTransitive(s'.mem, s.mem, target);
    }
  }

  /** After any run, the memory is what replaying the applied operations gives; only crashed ones can be missing. */
  lemma {:induction false} RunIsAtomic(states: seq<State>, events: seq<Event>) returns (applied: seq<bool>)
    requires IsRun(states, events) && Valid(states[0])
    ensures |applied| == |events| && forall i | 0 <= i < |events| && !events[i].crashed :: applied[i]
    ensures Valid(states[|events|])
    ensures SameLookups(states[|events|].mem, Replay(states[0].mem, events, applied))
    decreases |events|
  {
    var n := |events| - 1;
    if n < 0 {
      applied := [];
    } else {
      RunPrefix(states, events);
      var before := RunIsAtomic(states[..n + 1], events[..n]);
      applied := RunOneMore(states[0].mem, states[n], events, before, states[n + 1]);
    }
  }

  lemma RunOneMore(start: Memory, s: State, events: seq<Event>, before: seq<bool>, s': State)
    returns (applied: seq<bool>)
    requires events != [] && |before| == |events| - 1
    requires Valid(s) && Step(s, events[|events| - 1], s')
    requires SameLookups(s.mem, Replay(start, events[..|events| - 1], before))
    requires forall i | 0 <= i < |events| - 1 && !events[i].crashed :: before[i]
    ensures |applied| == |events| && forall i | 0 <= i < |events| && !events[i].crashed :: applied[i]
    ensures Valid(s') && SameLookups(s'.mem, Replay(start, events, applied))
  {
    var n := |events| - 1;
    var took := ReplayStep(s, events[n], s', Replay(start, events[..n], before));
    applied := before + [took];
    InitOfAppend(before, took);
  }

  lemma RunPrefix(states: seq<State>, events: seq<Event>)
    requires IsRun(states, events) && events != []
    ensures IsRun(states[..|events|], events[..|events| - 1])
    ensures Step(states[|events| - 1], events[|events| - 1], states[|events|])
  {
    var n := |events| - 1;
    assert Step(states[n], events[n], states[n + 1]);
    forall i | 0 <= i < n ensures Step(states[..n + 1][i], events[..n][i], states[..n + 1][i + 1]) {
      assert Step(states[i], events[i], states[i + 1]);
    }
  }

  /** The same holds of every saver rebuilt from the directory, whatever order it merged the files in. */
  lemma RunIsDurable(states: seq<State>, events: seq<Event>, rebuilt: Memory) returns (applied: seq<bool>)
    requires IsRun(states, events) && Valid(states[0])
    requires Stores(states[|events|].dir, rebuilt)
    ensures |applied| == |events| && forall i | 0 <= i < |events| && !events[i].crashed :: applied[i]
    ensures SameLookups(rebuilt, states[|events|].mem)
    ensures SameLookups(rebuilt, Replay(states[0].mem, events, applied))
  {
    applied := RunIsAtomic(states, events);
    StoredMemoriesAgree(states[|events|].dir, rebuilt, states[|events|].mem);
    SameTransitive(rebuilt, states[|events|].mem, Replay(states[0].mem, events, applied));
  }

  lemma SameTransitive(a: Memory, b: Memory, c: Memory)
    requires SameLookups(a, b) && SameLookups(b, c)
    ensures SameLookups(a, c)
  {
    forall t ensures Same(a, c, t) {
      assert Same(a, b, t) && Same(b, c, t);
      forall ns, n ensures FindSaved(a.storage, t, ns, n) == FindSaved(c.storage, t, ns, n) {
        assert FindSaved(b.storage, t, ns, n) == FindSaved(c.storage, t, ns, n);
      }
      forall k: WriteKey, s | k.thread == t ensures FindWrite(a.writes, k, s) == FindWrite(c.writes, k, s) {
        assert FindWrite(b.writes, k, s) == FindWrite(c.writes, k, s);
      }
    }
  }

  // -------------------------------------------------------------------------- the saver

  /** The saver object: the in-memory maps, and the directory it mirrors them to. */
  class JsonFileCheckpointSaver {
    var mem: Memory
    var dir: Directory

    ghost predicate Consistent()
      reads this
    {
      Valid(State(mem, dir))
    }

    constructor (loaded: Memory, existing: Directory)
      ensures mem == loaded && dir == existing
    {
      mem, dir := loaded, existing;
    }

    /** `_save_thread`: flush the thread, or unlink its file when the document would be empty. */
    method SaveThread(t: Thread) returns (ghost steps: seq<DiskStep>)
      requires TasksAgree(mem)
      modifies this`dir
      ensures FlushSteps(mem, t, steps) && dir == ApplySteps(old(dir), steps)
    {
      var doc := ThreadData(mem, t);
      if doc == EMPTY_DOCUMENT {
        steps := [Unlink(TargetFile(t))];
        OneDiskStep(dir, steps[0]);
        dir := dir - {TargetFile(t)};
        return;
      }
      steps := [WriteTemp(TempFile(t), doc), Rename(TempFile(t), TargetFile(t))];
      TwoDiskSteps(dir, steps[0], steps[1]);
      dir := dir[TempFile(t) := Whole(doc)];
      dir := (dir - {TempFile(t)})[TargetFile(t) := dir[TempFile(t)]];
    }

    method PutCheckpoint(t: Thread, ns: Name, c: Name, saved: Saved, channels: map<ChannelVersion, Blob>)
      requires Consistent()
      modifies this
      ensures Consistent() && mem == ApplyOp(old(mem), Put(t, ns, c, saved, channels))
      ensures forall t', ns', c' :: FindSaved(mem.storage, t', ns', c') ==
                if t' == t && ns' == ns && c' == c then Some(saved) else FindSaved(old(mem).storage, t', ns', c')
      ensures forall k :: FindBlob(mem.blobs, k) ==
                if k.thread == t && k.ns == ns && ChannelVersion(k.channel, k.version) in channels
                then Some(channels[ChannelVersion(k.channel, k.version)]) else FindBlob(old(mem).blobs, k)
      ensures mem.writes == old(mem).writes
      ensures Step(State(old(mem), old(dir)), Event(Put(t, ns, c, saved, channels), false), State(mem, dir))
    {
      ghost var op := Put(t, ns, c, saved, channels);
      ghost var before := State(mem, dir);
      OpKeepsTasksAgree(mem, op);
      forall t', ns', c' {
        PutSavedLookup(mem.storage, op, t', ns', c');
      }
      forall k {
        PutBlobLookup(mem, op, k);
      }
      mem := ApplyOp(mem, Put(t, ns, c, saved, channels));
      ghost var steps := SaveThread(t);
      assert StepVia(before, Event(op, false), State(mem, dir), steps);
      StepIsAtomic(before, Event(op, false), State(mem, dir));
    }

    method PutPendingWrites(k: WriteKey, task: Name, path: Name, pending: seq<PendingWrite>)
      requires Consistent()
      modifies this
      ensures Consistent() && mem == ApplyOp(old(mem), PutWrites(k, task, path, pending))
      ensures forall s ::
                SlotAfter(FindWrite(old(mem).writes, k, s), FindWrite(mem.writes, k, s), s, task, path, pending)
      ensures forall k', s | k' != k :: FindWrite(mem.writes, k', s) == FindWrite(old(mem).writes, k', s)
      ensures mem.storage == old(mem).storage && mem.blobs == old(mem).blobs
      ensures Step(State(old(mem), old(dir)), Event(PutWrites(k, task, path, pending), false), State(mem, dir))
    {
      ghost var op := PutWrites(k, task, path, pending);
      ghost var before := State(mem, dir);
      OpKeepsTasksAgree(mem, op);
      forall k', s {
        PutWritesLookup(mem, op, k', s);
      }
      mem := ApplyOp(mem, PutWrites(k, task, path, pending));
      ghost var steps := SaveThread(k.thread);
      assert StepVia(before, Event(op, false), State(mem, dir), steps);
      StepIsAtomic(before, Event(op, false), State(mem, dir));
    }

    method Delete(t: Thread)
      requires Consistent()
      modifies this
      ensures Consistent() && mem == ApplyOp(old(mem), DeleteThread(t)) && TargetFile(t) !in dir
      ensures forall ns, c :: FindSaved(mem.storage, t, ns, c).None?
      ensures forall k: WriteKey, s | k.thread == t :: FindWrite(mem.writes, k, s).None?
      ensures forall k: BlobKey | k.thread == t :: FindBlob(mem.blobs, k).None?
      ensures forall u | u != t :: Same(old(mem), mem, u)
      ensures Step(State(old(mem), old(dir)), Event(DeleteThread(t), false), State(mem, dir))
    {
      ghost var op := DeleteThread(t);
      ghost var before := State(mem, dir);
      mem := ApplyOp(mem, DeleteThread(t));
      dir := dir - {TargetFile(t)};
      ghost var steps := [Unlink(TargetFile(t))];
      DeleteForgets(before.mem, t);
      OneDiskStep(before.dir, steps[0]);
      assert StepVia(before, Event(op, false), State(mem, dir), steps);
      StepIsAtomic(before, Event(op, false), State(mem, dir));
    }
  }

  /**
   * A restart on whatever directory there is: it fails exactly when a listed file cannot be read, and otherwise the
   * last document that speaks of something decides. On the clean directory of an earlier saver it has that
   * saver's lookups, and goes on from there.
   */
  method OpenSaver(existing: Directory, files: seq<File>, ghost writer: Memory)
    returns (saver: JsonFileCheckpointSaver?)
    requires Lists(existing, files)
    ensures saver == null <==> !AllLegible(existing, files)
    ensures saver != null ==> fresh(saver) && saver.dir == existing && Loaded(existing, files, saver.mem)
    ensures Clean(existing) && Stores(existing, writer) && TasksAgree(writer) ==>
              saver != null && saver.Consistent() && SameLookups(writer, saver.mem)
  {
    var loaded := Load(existing, files);
    if loaded.None? {
      return null;
    }
    saver := new JsonFileCheckpointSaver(loaded.value, existing);
    if Clean(existing) && Stores(existing, writer) && TasksAgree(writer) {
      StoredMemoriesAgree(existing, writer, loaded.value);
      LookupsCarryTasksAgree(writer, loaded.value);
    }
  }
}
