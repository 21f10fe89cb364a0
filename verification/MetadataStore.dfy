/** Camera metadata as values: a bounded list of tagged entries with a bounded
    pool for their data, and what the operations of CameraMetadata make of it.

    The C library that keeps the buffer is not part of the source.  It is specified
    here: an entry of up to four bytes is kept in place, a longer one takes its size
    rounded up to eight from the pool, and adding to a full buffer fails. */
module MetadataStore {
  import opened Bits

  type Tag = nat

  datatype Entry = Entry(tag: Tag, data: seq<byte>)

  datatype Store = Store(entries: seq<Entry>, entryCap: nat, dataCap: nat)

  datatype Metadata = Metadata(buffer: Option<Store>, locked: bool)

  datatype Status = Done | NoMemory | InvalidOperation | BadValue | Failed

  // ----- the buffer -----

  /** What n bytes take from the pool. */
  function DataSize(n: nat): nat { if n <= 4 then 0 else (n + 7) / 8 * 8 }

  function DataCount(entries: seq<Entry>): nat {
    if entries == [] then 0 else DataSize(|entries[0].data|) + DataCount(entries[1..])
  }

  predicate Fits(s: Store) { |s.entries| <= s.entryCap && DataCount(s.entries) <= s.dataCap }

  predicate HasUniqueTags(entries: seq<Entry>) {
    forall i, j :: 0 <= i < j < |entries| ==> entries[i].tag != entries[j].tag
  }

  /** The first entry of a tag, or the length. */
  function IndexOf(entries: seq<Entry>, tag: Tag): (i: nat)
    ensures i <= |entries| && (i < |entries| ==> entries[i].tag == tag)
    ensures forall j :: 0 <= j < i ==> entries[j].tag != tag
  {
    if entries == [] || entries[0].tag == tag then 0 else 1 + IndexOf(entries[1..], tag)
  }

  lemma {:induction false} DataCountConcat(a: seq<Entry>, b: seq<Entry>)
    ensures DataCount(a + b) == DataCount(a) + DataCount(b)
    decreases |a|
  {
    if a == [] {
      assert a + b == b;
    } else {
      assert (a + b)[1..] == a[1..] + b;
      DataCountConcat(a[1..], b);
    }
  }

  lemma {:induction false} DataCountAt(entries: seq<Entry>, i: nat)
    requires i < |entries|
    ensures DataCount(entries) == DataCount(entries[..i]) + DataSize(|entries[i].data|) + DataCount(entries[i + 1..])
  {
    assert entries == entries[..i] + entries[i..];
    DataCountConcat(entries[..i], entries[i..]);
    assert entries[i..][1..] == entries[i + 1..];
  }

  /** The entry written at its place, or at the end. */
  function Put(entries: seq<Entry>, tag: Tag, data: seq<byte>): seq<Entry> {
    var i := IndexOf(entries, tag);
    if i < |entries| then entries[i := Entry(tag, data)] else entries + [Entry(tag, data)]
  }

  function Remove(entries: seq<Entry>, tag: Tag): seq<Entry> {
    var i := IndexOf(entries, tag);
    if i < |entries| then entries[..i] + entries[i + 1..] else entries
  }

  lemma {:induction false} PutCounts(entries: seq<Entry>, tag: Tag, data: seq<byte>)
    ensures |entries| <= |Put(entries, tag, data)| <= |entries| + 1
    ensures DataCount(Put(entries, tag, data)) <= DataCount(entries) + DataSize(|data|)
  {
    var i, e := IndexOf(entries, tag), Entry(tag, data);
    if i < |entries| {
      var put := entries[i := e];
      DataCountAt(entries, i);
      DataCountAt(put, i);
      assert put[..i] == entries[..i] && put[i + 1..] == entries[i + 1..];
    } else {
      DataCountConcat(entries, [e]);
    }
  }

  lemma {:induction false} RemoveCounts(entries: seq<Entry>, tag: Tag)
    ensures |Remove(entries, tag)| <= |entries| && DataCount(Remove(entries, tag)) <= DataCount(entries)
  {
    var i := IndexOf(entries, tag);
    if i < |entries| {
      DataCountAt(entries, i);
      DataCountConcat(entries[..i], entries[i + 1..]);
    }
  }

  // ----- as a map -----

  /** The data of the first entry of each tag. */
  function AsMap(entries: seq<Entry>): map<Tag, seq<byte>> {
    if entries == [] then map[] else AsMap(entries[1..])[entries[0].tag := entries[0].data]
  }

  /** It is what a lookup finds. */
  lemma {:induction false} AsMapAt(entries: seq<Entry>, tag: Tag)
    ensures tag in AsMap(entries) <==> IndexOf(entries, tag) < |entries|
    ensures tag in AsMap(entries) ==> AsMap(entries)[tag] == entries[IndexOf(entries, tag)].data
  {
    if entries == [] {
    } else {
      AsMapAt(entries[1..], tag);
    }
  }

  lemma {:induction false} IndexIs(entries: seq<Entry>, tag: Tag, i: nat)
    requires i <= |entries| && (i < |entries| ==> entries[i].tag == tag)
    requires forall j :: 0 <= j < i ==> entries[j].tag != tag
    ensures IndexOf(entries, tag) == i
  {}

  lemma {:induction false} PutAt(entries: seq<Entry>, tag: Tag, data: seq<byte>, t: Tag)
    ensures t in AsMap(Put(entries, tag, data)) <==> t == tag || t in AsMap(entries)
    ensures t in AsMap(Put(entries, tag, data)) ==>
              AsMap(Put(entries, tag, data))[t] == if t == tag then data else AsMap(entries)[t]
  {
    var put, i, k := Put(entries, tag, data), IndexOf(entries, tag), IndexOf(entries, t);
    hide AsMap, IndexOf;
    AsMapAt(entries, t);
    AsMapAt(put, t);
    IndexIs(put, t, if t == tag then i else if k < |entries| then k else |put|);
  }

  /** Writing a tag changes that tag's value and no other; tags that were unique stay so. */
  lemma {:induction false} PutIsMapWrite(entries: seq<Entry>, tag: Tag, data: seq<byte>)
    ensures AsMap(Put(entries, tag, data)) == AsMap(entries)[tag := data]
    ensures HasUniqueTags(Put(entries, tag, data)) <==> HasUniqueTags(entries)
  {
    PutKeepsUnique(entries, tag, data);
    hide AsMap, IndexOf;
    var m, n := AsMap(Put(entries, tag, data)), AsMap(entries)[tag := data];
    forall t
      ensures t in m <==> t in n
      ensures t in m ==> m[t] == n[t]
    {
      PutAt(entries, tag, data, t);
    }
    assert m == n;
  }

  lemma {:induction false} PutKeepsUnique(entries: seq<Entry>, tag: Tag, data: seq<byte>)
    ensures HasUniqueTags(Put(entries, tag, data)) <==> HasUniqueTags(entries)
  {
    hide IndexOf;
    var put := Put(entries, tag, data);
    assert forall j :: 0 <= j < |entries| ==> put[j].tag == entries[j].tag;
    if HasUniqueTags(put) {
      forall i, j | 0 <= i < j < |entries|
        ensures entries[i].tag != entries[j].tag
      {
        assert put[i].tag != put[j].tag;
      }
    }
  }

  /** Whether at most one entry has the tag. */
  predicate IsSingle(entries: seq<Entry>, tag: Tag) {
    forall i, j :: 0 <= i < j < |entries| && entries[i].tag == tag ==> entries[j].tag != tag
  }

  lemma {:induction false} RemoveAt(entries: seq<Entry>, tag: Tag, t: Tag)
    requires IsSingle(entries, tag)
    ensures t in AsMap(Remove(entries, tag)) <==> t != tag && t in AsMap(entries)
    ensures t in AsMap(Remove(entries, tag)) ==> AsMap(Remove(entries, tag))[t] == AsMap(entries)[t]
  {
    var r, i, k := Remove(entries, tag), IndexOf(entries, tag), IndexOf(entries, t);
    hide AsMap, IndexOf;
    AsMapAt(entries, t);
    AsMapAt(r, t);
    if i < |entries| {
      assert forall j :: i <= j < |r| ==> r[j] == entries[j + 1];
      IndexIs(r, t, if t == tag || k == |entries| then |r| else if k < i then k else k - 1);
    }
  }

  /** Deleting the first entry of a tag removes the tag from the map exactly when there is no other one: a second entry
      comes to light. */
  lemma {:induction false} RemoveIsMapRemoveExactlyWhen(entries: seq<Entry>, tag: Tag)
    ensures AsMap(Remove(entries, tag)) == AsMap(entries) - {tag} <==> IsSingle(entries, tag)
  {
    var m, n := AsMap(Remove(entries, tag)), AsMap(entries) - {tag};
    if IsSingle(entries, tag) {
      hide AsMap, IndexOf, Remove;
      forall t
        ensures t in m <==> t in n
        ensures t in m ==> m[t] == n[t]
      {
        RemoveAt(entries, tag, t);
      }
      assert m == n;
    } else {
      hide AsMap;
      var i, j :| 0 <= i < j < |entries| && entries[i].tag == tag && entries[j].tag == tag;
      var r, first := Remove(entries, tag), IndexOf(entries, tag);
      AsMapAt(r, tag);
      assert first <= i < j && r[j - 1] == entries[j];
      assert tag in m && tag !in n;
    }
  }

  lemma {:induction false} RemoveKeepsUnique(entries: seq<Entry>, tag: Tag)
    requires HasUniqueTags(entries)
    ensures HasUniqueTags(Remove(entries, tag)) && IsSingle(entries, tag)
  {
    hide IndexOf;
  }

  lemma {:induction false} AppendAt(a: seq<Entry>, b: seq<Entry>, t: Tag)
    ensures t in AsMap(a + b) <==> t in AsMap(a) || t in AsMap(b)
    ensures t in AsMap(a + b) ==> AsMap(a + b)[t] == if t in AsMap(a) then AsMap(a)[t] else AsMap(b)[t]
  {
    var i, j := IndexOf(a, t), IndexOf(b, t);
    hide AsMap, IndexOf;
    AsMapAt(a, t);
    AsMapAt(b, t);
    AsMapAt(a + b, t);
    IndexIs(a + b, t, if i < |a| then i else |a| + j);
  }

  /** Appended entries are found where there was none of their tag; an entry of the same tag hides them. */
  lemma {:induction false} AppendIsMerge(a: seq<Entry>, b: seq<Entry>)
    ensures AsMap(a + b) == AsMap(b) + AsMap(a)
  {
    hide AsMap;
    var m, n := AsMap(a + b), AsMap(b) + AsMap(a);
    forall t
      ensures t in m <==> t in n
      ensures t in m ==> m[t] == n[t]
    {
      AppendAt(a, b, t);
    }
    assert m == n;
  }

  lemma {:induction false} CommonTag(a: seq<Entry>, b: seq<Entry>, tag: Tag)
    requires tag in AsMap(a) && tag in AsMap(b)
    ensures !HasUniqueTags(a + b)
  {
    hide IndexOf, AsMap;
    AsMapAt(a, tag);
    AsMapAt(b, tag);
    assert (a + b)[IndexOf(a, tag)].tag == (a + b)[|a| + IndexOf(b, tag)].tag;
  }

  lemma {:induction false} PartsAreUnique(a: seq<Entry>, b: seq<Entry>)
    requires HasUniqueTags(a + b)
    ensures HasUniqueTags(a) && HasUniqueTags(b) && AsMap(a).Keys !! AsMap(b).Keys
  {
    hide IndexOf, AsMap;
    var c := a + b;
    assert forall i :: 0 <= i < |a| ==> c[i] == a[i];
    assert forall j :: 0 <= j < |b| ==> c[|a| + j] == b[j];
    forall t | t in AsMap(a).Keys
      ensures t !in AsMap(b).Keys
    {
      if t in AsMap(b) {
        CommonTag(a, b, t);
      }
    }
  }

  lemma {:induction false} WholeIsUnique(a: seq<Entry>, b: seq<Entry>)
    requires HasUniqueTags(a) && HasUniqueTags(b) && AsMap(a).Keys !! AsMap(b).Keys
    ensures HasUniqueTags(a + b)
  {
    hide IndexOf, AsMap;
    var c := a + b;
    if i, j :| 0 <= i < j < |c| && c[i].tag == c[j].tag {
      assert i < |a| <= j;
      TagInMap(a, i);
      TagInMap(b, j - |a|);
    }
  }

  /** Appending keeps tags unique exactly when they are unique on both sides and no tag is on both. */
  lemma {:induction false} AppendKeepsUniqueExactlyWhen(a: seq<Entry>, b: seq<Entry>)
    ensures HasUniqueTags(a + b) <==> HasUniqueTags(a) && HasUniqueTags(b) && AsMap(a).Keys !! AsMap(b).Keys
  {
    if HasUniqueTags(a + b) {
      PartsAreUnique(a, b);
    }
    if HasUniqueTags(a) && HasUniqueTags(b) && AsMap(a).Keys !! AsMap(b).Keys {
      WholeIsUnique(a, b);
    }
  }

  lemma {:induction false} TagInMap(entries: seq<Entry>, i: nat)
    requires i < |entries|
    ensures entries[i].tag in AsMap(entries)
  {
    AsMapAt(entries, entries[i].tag);
  }

  // ----- the operations -----

  /** Twice what is needed, if that is more than there is. */
  function Grown(count: nat, extra: nat, cap: nat): nat { if count + extra > cap then (count + extra) * 2 else cap }

  /** Makes room; without memory for a larger buffer, nothing happens. */
  function Resized(b: Option<Store>, extraEntries: nat, extraData: nat, memory: bool): (Option<Store>, Status) {
    match b
    case None => if memory then (Some(Store([], extraEntries * 2, extraData * 2)), Done) else (None, NoMemory)
    case Some(s) =>
      var entryCap := Grown(|s.entries|, extraEntries, s.entryCap);
      var dataCap := Grown(DataCount(s.entries), extraData, s.dataCap);
      if entryCap > s.entryCap || dataCap > s.dataCap then
        if memory then (Some(Store(s.entries, entryCap, dataCap)), Done) else (b, NoMemory)
      else (b, Done)
  }

  function EntriesOf(b: Option<Store>): seq<Entry> { match b case None => [] case Some(s) => s.entries }

  /** A successful resize leaves room and keeps the contents; a capacity that is exceeded becomes twice what is needed,
      another stays as it is. */
  lemma {:induction false} ResizeMakesRoom(b: Option<Store>, extraEntries: nat, extraData: nat, memory: bool)
    requires b.Some? ==> Fits(b.value)
    ensures var (r, status) := Resized(b, extraEntries, extraData, memory);
            (status == NoMemory ==> !memory && r == b) && (status == NoMemory || status == Done)
            && EntriesOf(r) == EntriesOf(b)
            && (status == Done ==>
                  r.Some? && Fits(r.value)
                  && |r.value.entries| + extraEntries <= r.value.entryCap
                  && DataCount(r.value.entries) + extraData <= r.value.dataCap
                  && (b.None? ==> r.value.entryCap == 2 * extraEntries && r.value.dataCap == 2 * extraData)
                  && (b.Some? ==>
                        var entries, data := |b.value.entries| + extraEntries, DataCount(b.value.entries) + extraData;
                        r.value.entryCap == (if entries > b.value.entryCap then 2 * entries else b.value.entryCap)
                        && r.value.dataCap == (if data > b.value.dataCap then 2 * data else b.value.dataCap))
                  && (b.Some? ==>
                        (|b.value.entries| + extraEntries > b.value.entryCap ==>
                           r.value.entryCap + 2 >= 2 * (b.value.entryCap + 2))
                        && (DataCount(b.value.entries) + extraData > b.value.dataCap ==>
                              r.value.dataCap + 2 >= 2 * (b.value.dataCap + 2))
                        && r.value.entryCap >= b.value.entryCap && r.value.dataCap >= b.value.dataCap))
  {}

  /** Whether a resize puts a new buffer in the place of the old one. */
  predicate NeedsBuffer(b: Option<Store>, extraEntries: nat, extraData: nat) {
    match b
    case None => true
    case Some(s) => |s.entries| + extraEntries > s.entryCap || DataCount(s.entries) + extraData > s.dataCap
  }

  lemma {:induction false} ResizeFailsExactlyWhen(b: Option<Store>, extraEntries: nat, extraData: nat, memory: bool)
    ensures Resized(b, extraEntries, extraData, memory).1
            == if NeedsBuffer(b, extraEntries, extraData) && !memory then NoMemory else Done
    ensures !NeedsBuffer(b, extraEntries, extraData) ==> Resized(b, extraEntries, extraData, memory).0 == b
  {}

  /** The operations, with whether the allocator has memory.  `Update` carries the bytes of the tag's type; `known` is
      whether the tag has one.  `Append` carries the entries of the other buffer, if it is not NULL, and `Acquire` the
      buffer that is taken over. */
  datatype Op =
    | Update(tag: Tag, known: bool, data: seq<byte>, memory: bool)
    | Erase(tag: Tag)
    | Append(other: Option<seq<Entry>>, memory: bool)
    | Lock
    | Unlock(sameBuffer: bool)
    | Release
    | Clear
    | Acquire(buffer: Option<Store>)

  function Step(m: Metadata, op: Op): (Metadata, Status) {
    match op
    case Update(tag, known, data, memory) =>
      if m.locked then (m, InvalidOperation)
      else if !known then (m, BadValue)
      else
        var (b, status) := Resized(m.buffer, 1, DataSize(|data|), memory);
        if status != Done then (m, status)
        else (m.(buffer := Some(b.value.(entries := Put(b.value.entries, tag, data)))), Done)
    case Erase(tag) =>
      if m.buffer.None? then (m, Failed)
      else (m.(buffer := Some(m.buffer.value.(entries := Remove(m.buffer.value.entries, tag)))), Done)
    case Append(None, _) => (m, Done)
    case Append(Some(other), memory) =>
      var (b, status) := Resized(m.buffer, |other|, DataCount(other), memory);
      if status != Done then (m, Failed)
      else (m.(buffer := Some(b.value.(entries := b.value.entries + other))), Done)
    case Lock => (m.(locked := true), Done)
    case Unlock(sameBuffer) =>
      if !m.locked then (m, InvalidOperation) else if !sameBuffer then (m, BadValue) else (m.(locked := false), Done)
    case Release => if m.locked then (m, InvalidOperation) else (m.(buffer := None), Done)
    case Clear => if m.locked then (m, InvalidOperation) else (m.(buffer := None), Done)
    case Acquire(buffer) => if m.locked then (m, InvalidOperation) else (m.(buffer := buffer), Done)
  }

  /** A buffer holds no more than it has room for. */
  predicate IsSound(m: Metadata) { m.buffer.Some? ==> Fits(m.buffer.value) }

  predicate IsBuffer(op: Op) { op.Acquire? && op.buffer.Some? ==> Fits(op.buffer.value) }

  predicate Inv(m: Metadata) { IsSound(m) && HasUniqueTags(EntriesOf(m.buffer)) }

  function Values(m: Metadata): map<Tag, seq<byte>> { AsMap(EntriesOf(m.buffer)) }

  /** What an operation that succeeds does to the map: appended values are hidden by those that are there. */
  function MapStep(v: map<Tag, seq<byte>>, op: Op): map<Tag, seq<byte>> {
    match op
    case Update(tag, _, data, _) => v[tag := data]
    case Erase(tag) => v - {tag}
    case Append(Some(other), _) => AsMap(other) + v
    case Release => map[]
    case Clear => map[]
    case Acquire(buffer) => AsMap(EntriesOf(buffer))
    case _ => v
  }

  /** The erase of a tag that has several entries, which an append may have left. */
  predicate Uncovers(m: Metadata, op: Op) {
    op.Erase? && m.buffer.Some? && !IsSingle(m.buffer.value.entries, op.tag)
  }

  /** Every operation keeps a buffer within its room; one that fails changes nothing at all. */
  lemma {:induction false} StepKeepsRoom(m: Metadata, op: Op)
    requires IsSound(m) && IsBuffer(op)
    ensures IsSound(Step(m, op).0)
    ensures Step(m, op).1 != Done ==> Step(m, op).0 == m
  {
    match op
    case Update(tag, known, data, memory) =>
      ResizeMakesRoom(m.buffer, 1, DataSize(|data|), memory);
      PutCounts(EntriesOf(m.buffer), tag, data);
      hide Put, DataCount, DataSize;
    case Erase(tag) =>
      RemoveCounts(EntriesOf(m.buffer), tag);
      hide Remove, DataCount;
    case Append(Some(other), memory) =>
      ResizeMakesRoom(m.buffer, |other|, DataCount(other), memory);
      DataCountConcat(EntriesOf(m.buffer), other);
      hide DataCount;
    case _ =>
  }

  /** An operation that succeeds does to the map what it should, exactly unless it erases a tag of several entries. */
  lemma {:induction false} StepIsMapStepExactlyWhen(m: Metadata, op: Op)
    requires IsSound(m) && IsBuffer(op) && Step(m, op).1 == Done
    ensures Values(Step(m, op).0) == MapStep(Values(m), op) <==> !Uncovers(m, op)
  {
    match op
    case Update(tag, known, data, memory) =>
      ResizeMakesRoom(m.buffer, 1, DataSize(|data|), memory);
      PutIsMapWrite(EntriesOf(m.buffer), tag, data);
      hide Put, AsMap, DataCount, DataSize, Fits;
    case Erase(tag) =>
      RemoveIsMapRemoveExactlyWhen(m.buffer.value.entries, tag);
      hide Remove, AsMap, IsSingle;
    case Append(Some(other), memory) =>
      ResizeMakesRoom(m.buffer, |other|, DataCount(other), memory);
      AppendIsMerge(EntriesOf(m.buffer), other);
      hide AsMap, DataCount, Fits;
    case _ =>
  }

  /** What keeps tags unique: an append that succeeds has unique tags and none that is there already, and a buffer that
      is taken over has unique tags. */
  predicate BringsNoDuplicate(m: Metadata, op: Op) {
    match op
    case Append(Some(other), _) => HasUniqueTags(other) && Values(m).Keys !! AsMap(other).Keys
    case Acquire(buffer) => HasUniqueTags(EntriesOf(buffer))
    case _ => true
  }

  /** From unique tags, an operation that succeeds leaves unique tags exactly when it brings no duplicate; and no erase
      uncovers anything then. */
  lemma {:induction false} StepKeepsUniqueExactlyWhen(m: Metadata, op: Op)
    requires Inv(m) && IsBuffer(op)
    ensures Inv(Step(m, op).0) <==> Step(m, op).1 != Done || BringsNoDuplicate(m, op)
    ensures !Uncovers(m, op)
  {
    StepKeepsRoom(m, op);
    var entries := EntriesOf(m.buffer);
    match op
    case Update(tag, known, data, memory) =>
      ResizeMakesRoom(m.buffer, 1, DataSize(|data|), memory);
      PutIsMapWrite(entries, tag, data);
      hide Put, AsMap, DataCount, DataSize, HasUniqueTags, IsSound;
    case Erase(tag) =>
      RemoveKeepsUnique(entries, tag);
      hide Remove, IsSingle, HasUniqueTags, IsSound;
    case Append(Some(other), memory) =>
      ResizeMakesRoom(m.buffer, |other|, DataCount(other), memory);
      AppendKeepsUniqueExactlyWhen(entries, other);
      hide AsMap, DataCount, HasUniqueTags, IsSound;
    case _ =>
  }

  /** An update fails exactly when the object is locked, the tag has no type, or a larger buffer is needed and there is
      no memory, in this order. */
  lemma {:induction false} UpdateFailsExactlyWhen(m: Metadata, op: Op)
    requires op.Update?
    ensures Step(m, op).1 == if m.locked then InvalidOperation
                             else if !op.known then BadValue
                             else if !op.memory && NeedsBuffer(m.buffer, 1, DataSize(|op.data|)) then NoMemory
                             else Done
  {
    ResizeFailsExactlyWhen(m.buffer, 1, DataSize(|op.data|), op.memory);
  }

  /** An append has memory, or needs none. */
  predicate HasRoomFor(m: Metadata, op: Op)
    requires op.Append? && op.other.Some?
  {
    op.memory || !NeedsBuffer(m.buffer, |op.other.value|, DataCount(op.other.value))
  }

  /** An append, locked or not, fails exactly when it needs a larger buffer and there is no memory. */
  lemma {:induction false} AppendFailsExactlyWhen(m: Metadata, op: Op)
    requires op.Append? && op.other.Some?
    ensures Step(m, op).1 == if HasRoomFor(m, op) then Done else Failed
  {
    ResizeFailsExactlyWhen(m.buffer, |op.other.value|, DataCount(op.other.value), op.memory);
  }

  /** When the other operations fail, and what they leave of the buffer: erasing needs a buffer; unlocking needs the
      lock and the same buffer; giving the buffer away, clearing and taking one over need that it is not locked. */
  lemma {:induction false} OthersFailExactlyWhen(m: Metadata, op: Op)
    requires !op.Update? && !(op.Append? && op.other.Some?)
    ensures Step(m, op).1 == match op
                             case Erase(_) => if m.buffer == None then Failed else Done
                             case Unlock(same) =>
                               if !m.locked then InvalidOperation else if same then Done else BadValue
                             case Append(_, _) => Done
                             case Lock => Done
                             case _ => if m.locked then InvalidOperation else Done
    ensures Step(m, op).1 == Done ==>
              Step(m, op).0.buffer.Some? == match op
                                            case Release => false
                                            case Clear => false
                                            case Acquire(buffer) => buffer.Some?
                                            case _ => m.buffer.Some?
  {
    hide Remove;
  }

  // ----- what the lock keeps -----

  /** The tags of an append that are not there yet. */
  predicate BringsTag(m: Metadata, op: Op) {
    op.Append? && op.other.Some? && exists t :: t in AsMap(op.other.value) && t !in Values(m)
  }

  /** Getting a buffer locks the object against updates and against losing the buffer, but not against erasing and
      appending: those are exactly what changes the contents of a locked object. */
  lemma {:induction false} LockedChangesExactlyWhen(m: Metadata, op: Op)
    requires Inv(m) && IsBuffer(op) && m.locked
    ensures Values(Step(m, op).0) != Values(m)
            <==> (op.Erase? && op.tag in Values(m)) || (BringsTag(m, op) && HasRoomFor(m, op))
  {
    var v := Values(m);
    StepKeepsRoom(m, op);
    if op.Append? && op.other.Some? {
      AppendFailsExactlyWhen(m, op);
    }
    hide HasRoomFor;
    if Step(m, op).1 == Done {
      StepKeepsUniqueExactlyWhen(m, op);
      StepIsMapStepExactlyWhen(m, op);
      hide AsMap, DataCount, Remove, Resized, HasUniqueTags, Fits, Uncovers;
      match op
      case Erase(tag) =>
        if tag in v {
          assert tag !in v - {tag};
        } else {
          assert v - {tag} == v;
        }
      case Append(Some(other), _) =>
        var w := AsMap(other) + v;
        if t :| t in AsMap(other) && t !in v {
          assert t in w;
        } else {
          assert w == v;
        }
      case _ =>
    }
  }

  /** An append that needs room is the one operation that puts another buffer in the place of the one that was handed
      out by the lock. */
  predicate ReplacesBuffer(m: Metadata, op: Op) {
    match op
    case Update(_, known, data, memory) => !m.locked && known && memory && NeedsBuffer(m.buffer, 1, DataSize(|data|))
    case Append(Some(other), memory) => memory && NeedsBuffer(m.buffer, |other|, DataCount(other))
    case Release => !m.locked && m.buffer.Some?
    case Clear => !m.locked && m.buffer.Some?
    case Acquire(_) => !m.locked
    case _ => false
  }

  /** Appending one entry to a full buffer, while it is locked: contents and buffer change. */
  lemma {:induction false} AppendChangesLocked(tag: Tag, b: byte)
    ensures var m, op := Metadata(Some(Store([], 0, 0)), true), Append(Some([Entry(tag, [b])]), true);
            Inv(m) && ReplacesBuffer(m, op) && Step(m, op).0.locked
            && Values(m) == map[] && Values(Step(m, op).0) == map[tag := [b]]
  {
    var m, es := Metadata(Some(Store([], 0, 0)), true), [Entry(tag, [b])];
    assert [] + es == es && es[1..] == [];
    assert DataCount(es) == 0;
    assert AsMap(es) == map[tag := [b]];
  }

  /** An append of a tag that is there, and an erase of it: the appended value comes to light. */
  lemma {:induction false} EraseUncovers(tag: Tag, b: byte, c: byte)
    ensures var m := Metadata(Some(Store([Entry(tag, [b])], 2, 0)), false);
            var m1 := Step(m, Append(Some([Entry(tag, [c])]), false)).0;
            Values(m) == map[tag := [b]] && Values(m1) == Values(m) && Values(Step(m1, Erase(tag)).0) == map[tag := [c]]
  {
    var es, fs, gs := [Entry(tag, [b])], [Entry(tag, [c])], [Entry(tag, [b]), Entry(tag, [c])];
    assert es[1..] == [] && fs[1..] == [] && gs[1..] == fs && es + fs == gs;
    assert DataCount(es) == 0 && DataCount(fs) == 0;
    var m := Metadata(Some(Store(es, 2, 0)), false);
    assert Step(m, Append(Some(fs), false)).0 == Metadata(Some(Store(gs, 2, 0)), false);
    assert AsMap(es) == map[tag := [b]] && AsMap(fs) == map[tag := [c]];
    assert AsMap(gs) == AsMap(fs)[tag := [b]];
    assert AsMap(fs)[tag := [b]] == map[tag := [b]];
    assert Remove(gs, tag) == fs;
  }

  // ----- runs -----

  function After(m: Metadata, ops: seq<Op>): Metadata
    decreases |ops|
  {
    if ops == [] then m else After(Step(m, ops[0]).0, ops[1..])
  }

  // ----- the lock, over runs -----

  /** Of two runs, the second goes on from where the first has come to. */
  lemma {:induction false} AfterBoth(m: Metadata, first: seq<Op>, second: seq<Op>)
    ensures After(m, first + second) == After(After(m, first), second)
    decreases |first|
  {
    if first == [] {
      assert first + second == second;
    } else {
      assert (first + second)[1..] == first[1..] + second;
      AfterBoth(Step(m, first[0]).0, first[1..], second);
    }
  }

  predicate NeverUnlocks(ops: seq<Op>) { forall k :: 0 <= k < |ops| ==> ops[k] != Unlock(true) }

  lemma {:induction false} StepLocks(m: Metadata, op: Op)
    ensures Step(m, op).0.locked <==> op == Lock || (m.locked && op != Unlock(true))
  {
    hide Resized, Put, Remove;
  }

  lemma {:induction false} StaysLocked(m: Metadata, ops: seq<Op>)
    requires m.locked && NeverUnlocks(ops)
    ensures After(m, ops).locked
    decreases |ops|
  {
    if ops != [] {
      StepLocks(m, ops[0]);
      hide Step;
      StaysLocked(Step(m, ops[0]).0, ops[1..]);
    }
  }

  /** After any run, an object is locked exactly when the last that was done about its lock, by getting the buffer or by
      unlocking with the same buffer, was to lock it; or nothing was, and it was locked before. */
  lemma {:induction false} LockedExactlyWhen(m: Metadata, ops: seq<Op>)
    ensures After(m, ops).locked
            <==> (m.locked && NeverUnlocks(ops))
                 || exists k :: 0 <= k < |ops| && ops[k] == Lock && NeverUnlocks(ops[k + 1..])
    decreases |ops|
  {
    if ops == [] {
    } else {
      var rest := ops[1..];
      StepLocks(m, ops[0]);
      hide Step;
      LockedExactlyWhen(Step(m, ops[0]).0, rest);
      assert NeverUnlocks(ops) <==> ops[0] != Unlock(true) && NeverUnlocks(rest) by {
        assert forall k :: 0 <= k < |rest| ==> ops[k + 1] == rest[k];
      }
      if k :| 0 <= k < |rest| && rest[k] == Lock && NeverUnlocks(rest[k + 1..]) {
        assert ops[k + 1] == Lock && ops[k + 2..] == rest[k + 1..];
      }
      if k :| 0 <= k < |ops| && ops[k] == Lock && NeverUnlocks(ops[k + 1..]) {
        if k > 0 {
          assert rest[k - 1] == Lock && rest[k..] == ops[k + 1..];
        }
      }
    }
  }

  /** Once the buffer has been handed out by a lock, and until it is unlocked with that buffer, updates, unlocking with
      another buffer, and giving the buffer away or taking one are refused, and change nothing. */
  lemma {:induction false} LockRefuses(m: Metadata, before: seq<Op>, between: seq<Op>, op: Op)
    requires NeverUnlocks(between)
    requires op.Update? || op == Unlock(false) || op.Release? || op.Clear? || op.Acquire?
    ensures var locked := After(m, before + [Lock] + between);
            Step(locked, op) == (locked, if op.Unlock? then BadValue else InvalidOperation)
  {
    AfterLock(m, before, between);
  }

  lemma {:induction false} AfterLock(m: Metadata, before: seq<Op>, between: seq<Op>)
    requires NeverUnlocks(between)
    ensures After(m, before + [Lock] + between).locked
  {
    assert before + [Lock] + between == before + ([Lock] + between);
    AfterBoth(m, before, [Lock] + between);
    var m1 := After(m, before);
    StepLocks(m1, Lock);
    assert ([Lock] + between)[1..] == between;
    hide Step;
    StaysLocked(Step(m1, Lock).0, between);
  }

  /** Unlocking with the same buffer succeeds then, and lets the next update of a known tag through. */
  lemma {:induction false} UnlockLetsThrough(m: Metadata, before: seq<Op>, between: seq<Op>, tag: Tag, data: seq<byte>)
    requires IsSound(m) && AreBuffers(before) && AreBuffers(between) && NeverUnlocks(between)
    ensures var locked := After(m, before + [Lock] + between);
            var (unlocked, status) := Step(locked, Unlock(true));
            status == Done && !unlocked.locked && unlocked.buffer == locked.buffer
            && (var (updated, done) := Step(unlocked, Update(tag, true, data, true));
                done == Done && Values(updated) == Values(locked)[tag := data])
  {
    var ops := before + [Lock] + between;
    AfterLock(m, before, between);
    RunKeepsRoom(m, ops);
    var locked := After(m, ops);
    var unlocked := locked.(locked := false);
    hide After, Put, Values, DataCount, Resized;
    UpdateGoesThrough(unlocked, tag, data);
  }

  lemma {:induction false} UpdateGoesThrough(m: Metadata, tag: Tag, data: seq<byte>)
    requires IsSound(m) && !m.locked
    ensures var (updated, done) := Step(m, Update(tag, true, data, true));
            done == Done && Values(updated) == Values(m)[tag := data]
  {
    var op := Update(tag, true, data, true);
    UpdateFailsExactlyWhen(m, op);
    StepIsMapStepExactlyWhen(m, op);
    hide Step, Values, AsMap, IsSound;
  }

  lemma {:induction false} RunKeepsRoom(m: Metadata, ops: seq<Op>)
    requires IsSound(m) && AreBuffers(ops)
    ensures IsSound(After(m, ops))
    decreases |ops|
  {
    if ops != [] {
      assert IsBuffer(ops[0]) && AreBuffers(ops[1..]);
      StepKeepsRoom(m, ops[0]);
      hide Step, IsSound, IsBuffer;
      RunKeepsRoom(Step(m, ops[0]).0, ops[1..]);
    }
  }

  predicate AreBuffers(ops: seq<Op>) { forall i :: 0 <= i < |ops| ==> IsBuffer(ops[i]) }

  // ----- the contents, over runs -----

  /** The map after the operations of a run that succeeded. */
  function MapAfter(m: Metadata, v: map<Tag, seq<byte>>, ops: seq<Op>): map<Tag, seq<byte>>
    decreases |ops|
  {
    if ops == [] then v
    else
      var (t, status) := Step(m, ops[0]);
      MapAfter(t, if status == Done then MapStep(v, ops[0]) else v, ops[1..])
  }

  /** No erase of the run meets a tag of several entries. */
  predicate NothingUncovered(m: Metadata, ops: seq<Op>)
    decreases |ops|
  {
    ops == [] || (!Uncovers(m, ops[0]) && NothingUncovered(Step(m, ops[0]).0, ops[1..]))
  }

  /** Over any run in which no erase uncovers an entry, the object is a map to which the operations that succeeded were
      applied, in order. */
  lemma {:induction false} RunIsMapRun(m: Metadata, ops: seq<Op>)
    requires IsSound(m) && AreBuffers(ops) && NothingUncovered(m, ops)
    ensures IsSound(After(m, ops)) && Values(After(m, ops)) == MapAfter(m, Values(m), ops)
    decreases |ops|
  {
    if ops == [] {
    } else {
      assert IsBuffer(ops[0]) && AreBuffers(ops[1..]);
      StepKeepsRoom(m, ops[0]);
      if Step(m, ops[0]).1 == Done {
        StepIsMapStepExactlyWhen(m, ops[0]);
      }
      hide Step, MapStep, Values, IsSound, Uncovers, IsBuffer;
      RunIsMapRun(Step(m, ops[0]).0, ops[1..]);
    }
  }

  /** No append or acquire that succeeds brings a duplicate. */
  predicate NoDuplicates(m: Metadata, ops: seq<Op>)
    decreases |ops|
  {
    ops == [] || ((Step(m, ops[0]).1 == Done ==> BringsNoDuplicate(m, ops[0]))
                  && NoDuplicates(Step(m, ops[0]).0, ops[1..]))
  }

  /** If every append brings new tags only, tags are unique throughout, and the object is that map. */
  lemma {:induction false} UniqueRunIsMapRun(m: Metadata, ops: seq<Op>)
    requires Inv(m) && AreBuffers(ops) && NoDuplicates(m, ops)
    ensures NothingUncovered(m, ops) && Inv(After(m, ops)) && Values(After(m, ops)) == MapAfter(m, Values(m), ops)
    decreases |ops|
  {
    NothingIsUncovered(m, ops);
    hide NothingUncovered, NoDuplicates, After, MapAfter, Values;
    RunIsMapRun(m, ops);
  }

  lemma {:induction false} NothingIsUncovered(m: Metadata, ops: seq<Op>)
    requires Inv(m) && AreBuffers(ops) && NoDuplicates(m, ops)
    ensures NothingUncovered(m, ops) && Inv(After(m, ops))
    decreases |ops|
  {
    if ops == [] {
    } else {
      assert IsBuffer(ops[0]) && AreBuffers(ops[1..]);
      StepKeepsUniqueExactlyWhen(m, ops[0]);
      hide Step, Inv, Uncovers, IsBuffer, BringsNoDuplicate;
      NothingIsUncovered(Step(m, ops[0]).0, ops[1..]);
    }
  }

  /** The object keeps its buffer in place of being given away. */
  predicate KeepsBuffer(op: Op) { !op.Release? && !op.Clear? && !op.Acquire? }

  /** How many entries an operation needs room for. */
  function ExtraEntries(op: Op): nat {
    match op
    case Update(_, _, _, _) => 1
    case Append(Some(other), _) => |other|
    case _ => 0
  }

  /** The operations of a run that found the entry capacity exceeded, and got a larger buffer. */
  function Reallocations(m: Metadata, ops: seq<Op>): nat
    decreases |ops|
  {
    if ops == [] then 0
    else
      var (t, status) := Step(m, ops[0]);
      (if status == Done && m.buffer.Some? && |m.buffer.value.entries| + ExtraEntries(ops[0]) > m.buffer.value.entryCap
       then 1 else 0) + Reallocations(t, ops[1..])
  }

  lemma {:induction false} StepGrows(m: Metadata, op: Op)
    requires IsSound(m) && m.buffer.Some? && KeepsBuffer(op)
    ensures var t := Step(m, op).0;
            t.buffer.Some? && t.buffer.value.entryCap >= m.buffer.value.entryCap
            && (Step(m, op).1 == Done && |m.buffer.value.entries| + ExtraEntries(op) > m.buffer.value.entryCap ==>
                  t.buffer.value.entryCap + 2 >= 2 * (m.buffer.value.entryCap + 2))
  {
    match op
    case Update(_, _, data, memory) =>
      ResizeMakesRoom(m.buffer, 1, DataSize(|data|), memory);
      hide DataSize, DataCount, Put;
    case Append(Some(other), memory) =>
      ResizeMakesRoom(m.buffer, |other|, DataCount(other), memory);
      hide DataCount;
    case _ =>
  }

  /** A capacity, plus two, has been multiplied by 2^r at least. */
  predicate IsGrownBy(before: nat, after: nat, r: nat) { after + 2 >= Times(Pow2(r), before + 2) }

  function Times(p: nat, x: nat): nat { p * x }

  lemma {:induction false} GrownMore(before: nat, middle: nat, after: nat, r: nat)
    requires before <= middle && IsGrownBy(middle, after, r)
    ensures IsGrownBy(before, after, r)
    ensures middle + 2 >= 2 * (before + 2) ==> IsGrownBy(before, after, r + 1)
  {
    assert Pow2(r + 1) == 2 * Pow2(r);
    hide Pow2, Times;
    TimesGrows(Pow2(r), before + 2, middle + 2);
  }

  lemma {:induction false} TimesGrows(p: nat, x: nat, y: nat)
    requires x <= y
    ensures Times(p, x) <= Times(p, y)
    ensures 2 * x <= y ==> Times(2 * p, x) <= Times(p, y)
  {
    MulMonotone(x, y, p);
    if 2 * x <= y {
      MulMonotone(2 * x, y, p);
    }
  }

  /** Growth is geometric: r reallocations for entries multiply the capacity, plus two, by 2^r at least. */
  lemma {:induction false} RunGrows(m: Metadata, ops: seq<Op>)
    requires IsSound(m) && m.buffer.Some? && forall i :: 0 <= i < |ops| ==> KeepsBuffer(ops[i])
    ensures After(m, ops).buffer.Some?
    ensures IsGrownBy(m.buffer.value.entryCap, After(m, ops).buffer.value.entryCap, Reallocations(m, ops))
    decreases |ops|
  {
    if ops == [] {
    } else {
      var t, rest := Step(m, ops[0]).0, ops[1..];
      assert KeepsBuffer(ops[0]);
      StepKeepsRoom(m, ops[0]);
      StepGrows(m, ops[0]);
      hide Step, IsSound, IsGrownBy, KeepsBuffer;
      RunGrows(t, rest);
      GrownMore(m.buffer.value.entryCap, t.buffer.value.entryCap, After(t, rest).buffer.value.entryCap,
                Reallocations(t, rest));
    }
  }
}
