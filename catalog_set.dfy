/**
 * The versioned catalog set: a name -> mapping-chain table and an index ->
 * entry-chain table, both multi-versioned.  Every chain is a sequence,
 * newest version first; a version's `child` is the next element and its
 * `parent` the previous one.  Which version a transaction sees is decided
 * by the transaction manager's UseTimestamp and HasConflict predicates,
 * which come in with the client context.
 */
module CatalogSets {
  import opened Wrappers

  // ---------------------------------------------------------------------
  // Versions, contexts, states

  /** One link of a name's mapping chain: the entry index the name is bound to at `timestamp`. */
  datatype MappingValue = MappingValue(index: nat, timestamp: nat, deleted: bool)

  /**
   * One version of a catalog entry.  `contents` stands for the object
   * itself; the placeholder version a creation leaves at the bottom of a
   * new chain (of type INVALID) has none.
   */
  datatype CatalogEntry = CatalogEntry(name: string, timestamp: nat, deleted: bool, contents: Option<int>)

  /** The calling transaction and the transaction manager's two predicates on timestamps. */
  datatype ClientContext = ClientContext(transactionId: nat, useTimestamp: nat -> bool, hasConflict: nat -> bool)

  datatype CatalogError = WriteConflict(name: string) | DependencyConflict(name: string)

  /** The three fields of a catalog set. */
  datatype CatalogState = CatalogState(
    mapping: map<string, seq<MappingValue>>,
    entries: map<nat, seq<CatalogEntry>>,
    currentEntry: nat)

  /** A new mapping link: the given index, timestamp 0, not deleted; on its own it has no parent and no child. */
  function NewMappingValue(index: nat): (m: MappingValue)
    ensures m.index == index && m.timestamp == 0 && !m.deleted
  {
    MappingValue(index, 0, false)
  }

  /**
   * The invariant of a catalog set: every index below the counter, every
   * chain non-empty and ending in its creation's placeholder, the versions
   * of one entry all under one name, and every mapping link pointing at a
   * stored entry of that name.
   */
  predicate Valid(s: CatalogState)
  {
    ChainsNonEmpty(s.entries) && Sealed(s.entries) &&
    (forall i :: i in s.entries ==>
      i < s.currentEntry &&
      forall j :: 0 <= j < |s.entries[i]| ==> s.entries[i][j].name == s.entries[i][0].name) &&
    (forall n :: n in s.mapping ==>
      |s.mapping[n]| >= 1 &&
      forall j :: 0 <= j < |s.mapping[n]| ==>
        s.mapping[n][j].index in s.entries && s.entries[s.mapping[n][j].index][0].name == n)
  }

  /** Every stored entry has at least one version. */
  predicate ChainsNonEmpty(entries: map<nat, seq<CatalogEntry>>)
  {
    forall i :: i in entries ==> |entries[i]| >= 1
  }

  /**
   * The oldest version of every stored entry is the deleted placeholder,
   * at timestamp 0, that its creation put there: a transaction that may use
   * no version of an entry reads a deletion.
   */
  predicate Sealed(entries: map<nat, seq<CatalogEntry>>)
  {
    forall i :: i in entries ==> EndsInPlaceholder(entries[i])
  }

  /** A version chain whose oldest version is the placeholder of its name. */
  predicate EndsInPlaceholder(chain: seq<CatalogEntry>)
  {
    |chain| >= 1 && chain[|chain| - 1] == Placeholder(chain[0].name)
  }

  /** A new catalog set: no names, no entries, the counter at 0. */
  function EmptyState(): (s: CatalogState)
    ensures Valid(s) && s.mapping == map[] && s.entries == map[] && s.currentEntry == 0
  {
    CatalogState(map[], map[], 0)
  }

  // ---------------------------------------------------------------------
  // Visibility

  /**
   * The position a transaction reads in a chain with these timestamps:
   * the first version whose timestamp it may use, or the oldest one when
   * it may use none.
   */
  function FirstUsable(timestamps: seq<nat>, use: nat -> bool): (p: nat)
    requires |timestamps| >= 1
    ensures p < |timestamps|
    ensures forall i :: 0 <= i < p ==> !use(timestamps[i])
    ensures use(timestamps[p]) || p == |timestamps| - 1
  {
    if |timestamps| == 1 || use(timestamps[0]) then 0 else 1 + FirstUsable(timestamps[1..], use)
  }

  /** The three conditions above single out one position. */
  lemma {:induction false} FirstUsableUnique(timestamps: seq<nat>, use: nat -> bool, p: nat)
    requires p < |timestamps|
    requires forall i :: 0 <= i < p ==> !use(timestamps[i])
    requires use(timestamps[p]) || p == |timestamps| - 1
    ensures FirstUsable(timestamps, use) == p
  {
    if p > 0 {
      assert !use(timestamps[0]);
      FirstUsableUnique(timestamps[1..], use, p - 1);
    }
  }

  function EntryTimestamps(chain: seq<CatalogEntry>): (ts: seq<nat>)
    ensures |ts| == |chain| && forall i :: 0 <= i < |chain| ==> ts[i] == chain[i].timestamp
  {
    seq(|chain|, i requires 0 <= i < |chain| => chain[i].timestamp)
  }

  /**
   * GetEntryForTransaction: the version of an entry the transaction reads.
   * When it may use none, it reads the oldest, which in a valid state is the
   * deleted placeholder.
   */
  function VisibleVersion(ctx: ClientContext, chain: seq<CatalogEntry>): CatalogEntry
    requires |chain| >= 1
  {
    chain[FirstUsable(EntryTimestamps(chain), ctx.useTimestamp)]
  }

  /** A live version a transaction reads in a chain ending in a deletion carries a timestamp it may use. */
  lemma VisibleLiveIsUsable(ctx: ClientContext, chain: seq<CatalogEntry>)
    requires |chain| >= 1 && chain[|chain| - 1].deleted
    ensures !VisibleVersion(ctx, chain).deleted ==> ctx.useTimestamp(VisibleVersion(ctx, chain).timestamp)
  {
    var p := FirstUsable(EntryTimestamps(chain), ctx.useTimestamp);
    assert EntryTimestamps(chain)[p] == chain[p].timestamp;
  }

  /** The link a transaction reads in a mapping chain: the newest one whose timestamp it may use, if any. */
  function UsableLink(ctx: ClientContext, chain: seq<MappingValue>): Option<MappingValue>
  {
    if chain == [] then None
    else if ctx.useTimestamp(chain[0].timestamp) then Some(chain[0])
    else UsableLink(ctx, chain[1..])
  }

  /**
   * A link is read exactly when some link is usable; it is then a usable
   * link of the chain, and no newer link is usable.
   */
  lemma {:induction false} UsableLinkSpec(ctx: ClientContext, chain: seq<MappingValue>)
    ensures UsableLink(ctx, chain).Some? <==> exists i :: 0 <= i < |chain| && ctx.useTimestamp(chain[i].timestamp)
    ensures UsableLink(ctx, chain).Some? ==>
      exists p :: 0 <= p < |chain| && chain[p] == UsableLink(ctx, chain).value &&
        ctx.useTimestamp(chain[p].timestamp) && forall i :: 0 <= i < p ==> !ctx.useTimestamp(chain[i].timestamp)
  {
    if chain != [] && !ctx.useTimestamp(chain[0].timestamp) {
      var tail := chain[1..];
      UsableLinkSpec(ctx, tail);
      if UsableLink(ctx, tail).Some? {
        var p :| 0 <= p < |tail| && tail[p] == UsableLink(ctx, tail).value &&
          ctx.useTimestamp(tail[p].timestamp) && forall i :: 0 <= i < p ==> !ctx.useTimestamp(tail[i].timestamp);
        assert chain[p + 1] == tail[p];
        forall i | 0 <= i < p + 1
          ensures !ctx.useTimestamp(chain[i].timestamp)
        {
          if i > 0 {
            assert chain[i] == tail[i - 1];
          }
        }
      }
      if exists i :: 0 <= i < |chain| && ctx.useTimestamp(chain[i].timestamp) {
        var i :| 0 <= i < |chain| && ctx.useTimestamp(chain[i].timestamp);
        assert tail[i - 1] == chain[i];
      }
    }
  }

  /**
   * GetMapping: the mapping link of `name` the transaction reads, or the
   * newest one when `getLatest`; nothing for an unknown name or when the
   * transaction may use none of its links.
   */
  function MappingFor(ctx: ClientContext, s: CatalogState, name: string, getLatest: bool): Option<MappingValue>
  {
    if name !in s.mapping || |s.mapping[name]| == 0 then None
    else if getLatest then Some(s.mapping[name][0])
    else UsableLink(ctx, s.mapping[name])
  }

  /** The name is bound for the transaction: it reads a mapping link that is not a deletion marker. */
  predicate Bound(ctx: ClientContext, s: CatalogState, name: string)
  {
    var m := MappingFor(ctx, s, name, false);
    m.Some? && !m.value.deleted
  }

  /** The index `name` is bound to for the transaction. */
  function BoundIndex(ctx: ClientContext, s: CatalogState, name: string): nat
    requires Bound(ctx, s, name)
  {
    MappingFor(ctx, s, name, false).value.index
  }

  /**
   * GetEntry: the entry the transaction reads under `name`, absent when the
   * name is unbound or either chain shows a deletion.  (A bound index always
   * has a stored chain in a valid state; the guard keeps the function total.)
   */
  function LookUp(ctx: ClientContext, s: CatalogState, name: string): (r: Option<CatalogEntry>)
    ensures r.Some? ==> Bound(ctx, s, name) && !r.value.deleted
    ensures r.Some? ==> BoundIndex(ctx, s, name) in s.entries && |s.entries[BoundIndex(ctx, s, name)]| >= 1
  {
    if !Bound(ctx, s, name) then None
    else
      var index := BoundIndex(ctx, s, name);
      if index !in s.entries || |s.entries[index]| == 0 then None
      else
        var entry := VisibleVersion(ctx, s.entries[index]);
        if entry.deleted then None else Some(entry)
  }

  /** In a valid state a bound name's index is stored, and what GetEntry returns carries that name. */
  lemma LookUpInValid(ctx: ClientContext, s: CatalogState, name: string)
    requires Valid(s) && Bound(ctx, s, name)
    ensures BoundIndex(ctx, s, name) in s.entries && s.entries[BoundIndex(ctx, s, name)][0].name == name
    ensures LookUp(ctx, s, name).Some? <==> !VisibleVersion(ctx, s.entries[BoundIndex(ctx, s, name)]).deleted
    ensures LookUp(ctx, s, name).Some? ==> LookUp(ctx, s, name).value.name == name
  {
    var chain := s.mapping[name];
    UsableLinkSpec(ctx, chain);
    var p :| 0 <= p < |chain| && chain[p] == UsableLink(ctx, chain).value;
    assert chain[p].index in s.entries;
  }

  /**
   * Snapshot reads: what GetEntry returns, and the mapping link it was found
   * through, carry timestamps the transaction may use; no version it may not
   * use is ever returned.
   */
  lemma LookUpIsUsable(ctx: ClientContext, s: CatalogState, name: string)
    requires Valid(s)
    ensures Bound(ctx, s, name) ==> ctx.useTimestamp(MappingFor(ctx, s, name, false).value.timestamp)
    ensures LookUp(ctx, s, name).Some? ==> ctx.useTimestamp(LookUp(ctx, s, name).value.timestamp)
  {
    if Bound(ctx, s, name) {
      UsableLinkSpec(ctx, s.mapping[name]);
      LookUpInValid(ctx, s, name);
      var chain := s.entries[BoundIndex(ctx, s, name)];
      VisibleLiveIsUsable(ctx, chain);
    }
  }

  /** GetRootEntry: the newest version under the newest binding of `name`, whatever the transaction. */
  function RootEntry(s: CatalogState, name: string): (r: Option<CatalogEntry>)
    requires Valid(s)
    ensures r.None? <==> name !in s.mapping
    ensures r.Some? ==> r.value.name == name
  {
    if name !in s.mapping then None else Some(s.entries[s.mapping[name][0].index][0])
  }

  /** The slots Scan hands to its callback: those whose visible version is not deleted. */
  function ScanSlots(ctx: ClientContext, entries: map<nat, seq<CatalogEntry>>): set<nat>
    requires ChainsNonEmpty(entries)
  {
    set i | i in entries && !VisibleVersion(ctx, entries[i]).deleted
  }

  /** The slots a sequence of Scan callback calls was made for. */
  function Slots(calls: seq<(nat, CatalogEntry)>): set<nat>
  {
    if calls == [] then {} else Slots(calls[..|calls| - 1]) + {calls[|calls| - 1].0}
  }

  /** Slots holds exactly the slots of the calls. */
  lemma {:induction false} SlotsOfCalls(calls: seq<(nat, CatalogEntry)>)
    ensures forall j :: 0 <= j < |calls| ==> calls[j].0 in Slots(calls)
    ensures forall i :: i in Slots(calls) ==> exists j :: 0 <= j < |calls| && calls[j].0 == i
  {
    if calls != [] {
      var prefix := calls[..|calls| - 1];
      SlotsOfCalls(prefix);
      forall i | i in Slots(calls)
        ensures exists j :: 0 <= j < |calls| && calls[j].0 == i
      {
        if i in Slots(prefix) {
          var j :| 0 <= j < |prefix| && prefix[j].0 == i;
          assert calls[j].0 == i;
        } else {
          assert calls[|calls| - 1].0 == i;
        }
      }
    }
  }

  /** The slots of the index table, listed once each, in the table's storage order. */
  predicate Enumerates(order: seq<nat>, keys: set<nat>)
  {
    (forall j :: 0 <= j < |order| ==> order[j] in keys) &&
    (forall i :: i in keys ==> i in order) &&
    (forall j, l :: 0 <= j < l < |order| ==> order[j] != order[l])
  }

  /**
   * The callback calls Scan makes when it visits the slots in `order`: for
   * each slot, the version the transaction reads there, unless it is deleted.
   */
  function ScanOf(ctx: ClientContext, entries: map<nat, seq<CatalogEntry>>, order: seq<nat>): seq<(nat, CatalogEntry)>
    requires ChainsNonEmpty(entries) && forall j :: 0 <= j < |order| ==> order[j] in entries
  {
    if order == [] then []
    else
      var calls := ScanOf(ctx, entries, order[..|order| - 1]);
      var index := order[|order| - 1];
      var entry := VisibleVersion(ctx, entries[index]);
      if entry.deleted then calls else calls + [(index, entry)]
  }

  /** Every callback call receives a visible, non-deleted version of a slot in `order`. */
  lemma {:induction false} ScanOfVisible(ctx: ClientContext, entries: map<nat, seq<CatalogEntry>>, order: seq<nat>)
    requires ChainsNonEmpty(entries) && forall j :: 0 <= j < |order| ==> order[j] in entries
    ensures forall j :: 0 <= j < |ScanOf(ctx, entries, order)| ==>
      ScanOf(ctx, entries, order)[j].0 in order &&
      ScanOf(ctx, entries, order)[j].1 == VisibleVersion(ctx, entries[ScanOf(ctx, entries, order)[j].0]) &&
      !ScanOf(ctx, entries, order)[j].1.deleted
  {
    if order != [] {
      var prefix := order[..|order| - 1];
      ScanOfVisible(ctx, entries, prefix);
      var calls := ScanOf(ctx, entries, order);
      forall j | 0 <= j < |calls|
        ensures calls[j].0 in order
      {
        if j < |ScanOf(ctx, entries, prefix)| {
          assert calls[j] == ScanOf(ctx, entries, prefix)[j];
          assert calls[j].0 in prefix;
        }
      }
    }
  }

  /** The callback is called for exactly the slots in `order` whose visible version is not deleted. */
  lemma {:induction false} ScanOfSlots(ctx: ClientContext, entries: map<nat, seq<CatalogEntry>>, order: seq<nat>)
    requires ChainsNonEmpty(entries) && forall j :: 0 <= j < |order| ==> order[j] in entries
    ensures Slots(ScanOf(ctx, entries, order)) == set i | i in order && !VisibleVersion(ctx, entries[i]).deleted
  {
    if order != [] {
      var prefix := order[..|order| - 1];
      var index := order[|order| - 1];
      ScanOfSlots(ctx, entries, prefix);
      var calls := ScanOf(ctx, entries, prefix);
      var entry := VisibleVersion(ctx, entries[index]);
      if !entry.deleted {
        assert (calls + [(index, entry)])[..|calls|] == calls;
      }
      assert order == prefix + [index];
      assert (set i | i in order && !VisibleVersion(ctx, entries[i]).deleted) ==
        (set i | i in prefix && !VisibleVersion(ctx, entries[i]).deleted) + (if entry.deleted then {} else {index});
    }
  }

  /** When `order` lists no slot twice, no slot is handed to the callback twice. */
  lemma {:induction false} ScanOfOnce(ctx: ClientContext, entries: map<nat, seq<CatalogEntry>>, order: seq<nat>)
    requires ChainsNonEmpty(entries) && forall j :: 0 <= j < |order| ==> order[j] in entries
    requires forall j, l :: 0 <= j < l < |order| ==> order[j] != order[l]
    ensures |Slots(ScanOf(ctx, entries, order))| == |ScanOf(ctx, entries, order)|
  {
    if order != [] {
      var prefix := order[..|order| - 1];
      var index := order[|order| - 1];
      ScanOfOnce(ctx, entries, prefix);
      ScanOfSlots(ctx, entries, prefix);
      var calls := ScanOf(ctx, entries, prefix);
      var entry := VisibleVersion(ctx, entries[index]);
      if !entry.deleted {
        assert index !in prefix;
        assert index !in Slots(calls);
        assert (calls + [(index, entry)])[..|calls|] == calls;
      }
    }
  }

  /** Snapshot scans: every version handed to the callback carries a timestamp the transaction may use. */
  lemma ScanOfIsUsable(ctx: ClientContext, entries: map<nat, seq<CatalogEntry>>, order: seq<nat>)
    requires ChainsNonEmpty(entries) && Sealed(entries) && forall j :: 0 <= j < |order| ==> order[j] in entries
    ensures forall j :: 0 <= j < |ScanOf(ctx, entries, order)| ==>
      ctx.useTimestamp(ScanOf(ctx, entries, order)[j].1.timestamp)
  {
    ScanOfVisible(ctx, entries, order);
    forall j | 0 <= j < |ScanOf(ctx, entries, order)|
      ensures ctx.useTimestamp(ScanOf(ctx, entries, order)[j].1.timestamp)
    {
      VisibleLiveIsUsable(ctx, entries[ScanOf(ctx, entries, order)[j].0]);
    }
  }

  /** A scan in storage order calls back once for each slot whose visible version is not deleted. */
  lemma ScanVisitsVisibleSlots(ctx: ClientContext, entries: map<nat, seq<CatalogEntry>>, order: seq<nat>)
    requires ChainsNonEmpty(entries) && Enumerates(order, entries.Keys)
    ensures Slots(ScanOf(ctx, entries, order)) == ScanSlots(ctx, entries)
    ensures |Slots(ScanOf(ctx, entries, order))| == |ScanOf(ctx, entries, order)|
  {
    ScanOfSlots(ctx, entries, order);
    ScanOfOnce(ctx, entries, order);
  }

  /** The names SimilarEntry compares against: those bound for the transaction. */
  function BoundNames(ctx: ClientContext, s: CatalogState): set<string>
  {
    set n | n in s.mapping && Bound(ctx, s, n)
  }

  // ---------------------------------------------------------------------
  // Mutations

  /** A version written by the transaction. */
  function Stamp(ctx: ClientContext, e: CatalogEntry, name: string, deleted: bool): CatalogEntry
  {
    e.(name := name, timestamp := ctx.transactionId, deleted := deleted)
  }

  /** The version a creation leaves below the new one: deleted, at timestamp 0, without contents. */
  function Placeholder(name: string): CatalogEntry
  {
    CatalogEntry(name, 0, true, None)
  }

  /** The chain below a new mapping link for `name`. */
  function MappingChain(s: CatalogState, name: string): seq<MappingValue>
  {
    if name in s.mapping then s.mapping[name] else []
  }

  /**
   * CreateEntry's verdict: false when the name is bound for the transaction,
   * a write-write conflict when the newest mapping link of the name conflicts,
   * true otherwise.
   */
  function CreateOutcome(ctx: ClientContext, s: CatalogState, name: string): Result<bool, CatalogError>
  {
    if Bound(ctx, s, name) then Success(false)
    else if name in s.mapping && |s.mapping[name]| > 0 && ctx.hasConflict(s.mapping[name][0].timestamp) then
      Failure(WriteConflict(name))
    else Success(true)
  }

  /** The state after a successful CreateEntry: a new index with a fresh chain, bound to `name`. */
  function Created(ctx: ClientContext, s: CatalogState, name: string, value: CatalogEntry): CatalogState
  {
    var index := s.currentEntry;
    CatalogState(
      s.mapping[name := [NewMappingValue(index).(timestamp := ctx.transactionId)] + MappingChain(s, name)],
      s.entries[index := [Stamp(ctx, value, name, false), Placeholder(name)]],
      s.currentEntry + 1)
  }

  /** AlterEntry's and DropEntry's common verdict: not found, or a conflict with the newest version. */
  function ModifyOutcome(ctx: ClientContext, s: CatalogState, name: string): Result<bool, CatalogError>
  {
    if LookUp(ctx, s, name).None? then Success(false)
    else if ctx.hasConflict(s.entries[BoundIndex(ctx, s, name)][0].timestamp) then Failure(WriteConflict(name))
    else Success(true)
  }

  /** The state after a successful AlterEntry: the altered visible version heads the same chain. */
  function Altered(ctx: ClientContext, s: CatalogState, name: string, alter: CatalogEntry -> CatalogEntry): CatalogState
    requires LookUp(ctx, s, name).Some?
  {
    var index := BoundIndex(ctx, s, name);
    var altered := Stamp(ctx, alter(LookUp(ctx, s, name).value), name, false);
    CatalogState(s.mapping, s.entries[index := [altered] + s.entries[index]], s.currentEntry)
  }

  /** DropEntry's verdict: AlterEntry's, then a dependency conflict when a non-cascading drop has dependents. */
  function DropOutcome(ctx: ClientContext, s: CatalogState, name: string, cascade: bool, hasDependents: bool)
    : Result<bool, CatalogError>
  {
    var r := ModifyOutcome(ctx, s, name);
    if r == Success(true) && !cascade && hasDependents then Failure(DependencyConflict(name)) else r
  }

  /**
   * The state after a successful DropEntry: a deleted copy of the visible
   * version heads the chain, and a deletion marker carrying the index of the
   * newest link heads the mapping.
   */
  function Dropped(ctx: ClientContext, s: CatalogState, name: string): CatalogState
    requires LookUp(ctx, s, name).Some?
  {
    var index := BoundIndex(ctx, s, name);
    var deleted := Stamp(ctx, LookUp(ctx, s, name).value, name, true);
    CatalogState(
      s.mapping[name := [MappingValue(s.mapping[name][0].index, ctx.transactionId, true)] + s.mapping[name]],
      s.entries[index := [deleted] + s.entries[index]],
      s.currentEntry)
  }

  /**
   * The state after Undo of version `k` of entry `index`: its parent is
   * unlinked, so that version takes its place; when the name's newest
   * mapping link is a deletion marker, or the restored version is a
   * creation's placeholder, that link is unlinked too.
   */
  function Undone(s: CatalogState, index: nat, k: nat): CatalogState
    requires index in s.entries && 1 <= k < |s.entries[index]|
    requires var n := s.entries[index][k].name; n in s.mapping ==> |s.mapping[n]| >= 1
  {
    var chain := s.entries[index];
    var entry := chain[k];
    var name := entry.name;
    var mapping :=
      if name in s.mapping && (s.mapping[name][0].deleted || entry.contents.None?) then
        if |s.mapping[name]| > 1 then s.mapping[name := s.mapping[name][1..]] else s.mapping - {name}
      else s.mapping;
    CatalogState(mapping, s.entries[index := chain[..k - 1] + chain[k..]], s.currentEntry)
  }

  // ---------------------------------------------------------------------
  // The invariant is kept

  lemma CreatedValid(ctx: ClientContext, s: CatalogState, name: string, value: CatalogEntry)
    requires Valid(s)
    ensures Valid(Created(ctx, s, name, value))
  {
  }

  lemma AlteredValid(ctx: ClientContext, s: CatalogState, name: string, alter: CatalogEntry -> CatalogEntry)
    requires Valid(s) && LookUp(ctx, s, name).Some?
    ensures Valid(Altered(ctx, s, name, alter))
  {
    LookUpInValid(ctx, s, name);
  }

  lemma DroppedValid(ctx: ClientContext, s: CatalogState, name: string)
    requires Valid(s) && LookUp(ctx, s, name).Some?
    ensures Valid(Dropped(ctx, s, name))
  {
    LookUpInValid(ctx, s, name);
  }

  lemma UndoneValid(s: CatalogState, index: nat, k: nat)
    requires Valid(s) && index in s.entries && 1 <= k < |s.entries[index]|
    ensures Valid(Undone(s, index, k))
  {
    var chain := s.entries[index];
    assert (chain[..k - 1] + chain[k..])[0].name == chain[0].name;
  }

  // ---------------------------------------------------------------------
  // What the mutations promise

  /**
   * Own-write visibility after CreateEntry: when the transaction may use its
   * own timestamp it reads the new entry under `name`, and every other name
   * reads as before.
   */
  lemma CreateThenLookUp(ctx: ClientContext, s: CatalogState, name: string, value: CatalogEntry, other: string)
    requires Valid(s) && ctx.useTimestamp(ctx.transactionId)
    ensures LookUp(ctx, Created(ctx, s, name, value), name) == Some(Stamp(ctx, value, name, false))
    ensures other != name ==> LookUp(ctx, Created(ctx, s, name, value), other) == LookUp(ctx, s, other)
  {
    var r := Created(ctx, s, name, value);
    assert r.mapping[name][0].timestamp == ctx.transactionId;
    assert FirstUsable(EntryTimestamps(r.entries[s.currentEntry]), ctx.useTimestamp) == 0;
    if other != name && Bound(ctx, s, other) {
      LookUpInValid(ctx, s, other);
      assert BoundIndex(ctx, s, other) != s.currentEntry;
    }
  }

  /** Own-write visibility after AlterEntry: the transaction reads the altered version under `name`. */
  lemma AlterThenLookUp(ctx: ClientContext, s: CatalogState, name: string, alter: CatalogEntry -> CatalogEntry)
    requires Valid(s) && LookUp(ctx, s, name).Some? && ctx.useTimestamp(ctx.transactionId)
    ensures LookUp(ctx, Altered(ctx, s, name, alter), name) ==
      Some(Stamp(ctx, alter(LookUp(ctx, s, name).value), name, false))
  {
    var r := Altered(ctx, s, name, alter);
    var index := BoundIndex(ctx, s, name);
    assert r.mapping == s.mapping;
    assert FirstUsable(EntryTimestamps(r.entries[index]), ctx.useTimestamp) == 0;
  }

  /** Tombstone exclusion after DropEntry: the dropping transaction no longer reads `name`. */
  lemma DropThenLookUp(ctx: ClientContext, s: CatalogState, name: string)
    requires Valid(s) && LookUp(ctx, s, name).Some? && ctx.useTimestamp(ctx.transactionId)
    ensures LookUp(ctx, Dropped(ctx, s, name), name).None?
  {
    var r := Dropped(ctx, s, name);
    assert r.mapping[name][0].deleted;
  }

  /** A version the transaction may not use, pushed on a chain, does not change what it reads there. */
  lemma VisibleSkipsUnusable(ctx: ClientContext, top: CatalogEntry, chain: seq<CatalogEntry>)
    requires |chain| >= 1 && !ctx.useTimestamp(top.timestamp)
    ensures VisibleVersion(ctx, [top] + chain) == VisibleVersion(ctx, chain)
  {
    assert EntryTimestamps([top] + chain)[1..] == EntryTimestamps(chain);
  }

  /** A mapping link the transaction may not use, pushed on a chain, does not change the link it reads. */
  lemma UsableLinkSkipsUnusable(ctx: ClientContext, top: MappingValue, chain: seq<MappingValue>)
    requires !ctx.useTimestamp(top.timestamp)
    ensures UsableLink(ctx, [top] + chain) == UsableLink(ctx, chain)
  {
    assert ([top] + chain)[1..] == chain;
  }

  /**
   * Isolation of readers from CreateEntry: a transaction that may not use
   * the creator's timestamp reads every name as before.
   */
  lemma CreateIsolated(writer: ClientContext, reader: ClientContext, s: CatalogState, name: string, value: CatalogEntry, n: string)
    requires Valid(s) && !reader.useTimestamp(writer.transactionId)
    ensures LookUp(reader, Created(writer, s, name, value), n) == LookUp(reader, s, n)
  {
    var c := Created(writer, s, name, value);
    if n == name {
      UsableLinkSkipsUnusable(reader, c.mapping[name][0], MappingChain(s, name));
      assert c.mapping[name] == [c.mapping[name][0]] + MappingChain(s, name);
    }
    assert MappingFor(reader, c, n, false) == MappingFor(reader, s, n, false);
    if Bound(reader, s, n) {
      LookUpInValid(reader, s, n);
      assert BoundIndex(reader, s, n) != s.currentEntry;
    }
  }

  /**
   * Isolation of readers from AlterEntry: a transaction that may not use
   * the altering transaction's timestamp reads every name as before.
   */
  lemma AlterIsolated(writer: ClientContext, reader: ClientContext, s: CatalogState, name: string,
                      alter: CatalogEntry -> CatalogEntry, n: string)
    requires Valid(s) && LookUp(writer, s, name).Some? && !reader.useTimestamp(writer.transactionId)
    ensures LookUp(reader, Altered(writer, s, name, alter), n) == LookUp(reader, s, n)
  {
    var a := Altered(writer, s, name, alter);
    var index := BoundIndex(writer, s, name);
    assert a.mapping == s.mapping;
    if Bound(reader, s, n) {
      LookUpInValid(reader, s, n);
      if BoundIndex(reader, s, n) == index {
        VisibleSkipsUnusable(reader, a.entries[index][0], s.entries[index]);
      }
    }
  }

  /**
   * Isolation of readers from DropEntry: a transaction that may not use
   * the dropping transaction's timestamp still reads every name as before,
   * the dropped one included.
   */
  lemma DropIsolated(writer: ClientContext, reader: ClientContext, s: CatalogState, name: string, n: string)
    requires Valid(s) && LookUp(writer, s, name).Some? && !reader.useTimestamp(writer.transactionId)
    ensures LookUp(reader, Dropped(writer, s, name), n) == LookUp(reader, s, n)
  {
    var d := Dropped(writer, s, name);
    var index := BoundIndex(writer, s, name);
    if n == name {
      UsableLinkSkipsUnusable(reader, d.mapping[name][0], s.mapping[name]);
    }
    assert MappingFor(reader, d, n, false) == MappingFor(reader, s, n, false);
    if Bound(reader, s, n) {
      LookUpInValid(reader, s, n);
      if BoundIndex(reader, s, n) == index {
        VisibleSkipsUnusable(reader, d.entries[index][0], s.entries[index]);
      }
    }
  }

  /**
   * Undo of a creation: the mapping is back to what it was, so every name
   * reads as it did before the creation; the new index keeps only the
   * placeholder.
   */
  lemma UndoCreate(ctx: ClientContext, s: CatalogState, name: string, value: CatalogEntry, other: string)
    requires Valid(s)
    ensures var u := Undone(Created(ctx, s, name, value), s.currentEntry, 1);
      u.mapping == s.mapping && u.entries == s.entries[s.currentEntry := [Placeholder(name)]] &&
      u.currentEntry == s.currentEntry + 1
    ensures LookUp(ctx, Undone(Created(ctx, s, name, value), s.currentEntry, 1), other) == LookUp(ctx, s, other)
  {
    UnlinkCreation(ctx, s, name, value);
    var u := Undone(Created(ctx, s, name, value), s.currentEntry, 1);
    if Bound(ctx, s, other) {
      LookUpInValid(ctx, s, other);
      assert BoundIndex(ctx, u, other) == BoundIndex(ctx, s, other) != s.currentEntry;
    }
  }

  /** Undoing a creation unlinks its mapping link and leaves the new index with the placeholder alone. */
  lemma UnlinkCreation(ctx: ClientContext, s: CatalogState, name: string, value: CatalogEntry)
    requires name in s.mapping ==> |s.mapping[name]| >= 1
    ensures var u := Undone(Created(ctx, s, name, value), s.currentEntry, 1);
      u.mapping == s.mapping && u.entries == s.entries[s.currentEntry := [Placeholder(name)]] &&
      u.currentEntry == s.currentEntry + 1
  {
    var c := Created(ctx, s, name, value);
    var chain := c.entries[s.currentEntry];
    assert chain[..0] + chain[1..] == [Placeholder(name)];
    assert chain[1].name == name && chain[1].contents.None?;
    if name in s.mapping {
      assert c.mapping[name][1..] == s.mapping[name];
      assert c.mapping[name := c.mapping[name][1..]] == s.mapping;
    } else {
      assert c.mapping - {name} == s.mapping;
    }
  }

  /**
   * Concurrent creation of one name: a second transaction that may not use
   * the first's uncommitted link, and conflicts with it, reads the name as it
   * was before; unless it already saw the name bound there, its creation is a
   * write-write conflict. Either way it never creates the entry too.
   */
  lemma ConcurrentCreateConflicts(first: ClientContext, second: ClientContext, s: CatalogState, name: string, value: CatalogEntry)
    requires !second.useTimestamp(first.transactionId) && second.hasConflict(first.transactionId)
    ensures CreateOutcome(second, Created(first, s, name, value), name) ==
      if Bound(second, s, name) then Success(false) else Failure(WriteConflict(name))
  {
    var c := Created(first, s, name, value);
    var chain := c.mapping[name];
    assert chain[1..] == MappingChain(s, name);
    assert UsableLink(second, chain) == UsableLink(second, MappingChain(s, name));
  }

  /**
   * After the creating transaction rolls back, every transaction's CreateEntry
   * has the verdict it had before the creation; in particular a third
   * transaction now creates a name that was new.
   */
  lemma UndoCreateThenCreate(first: ClientContext, third: ClientContext, s: CatalogState, name: string, value: CatalogEntry, other: string)
    requires Valid(s)
    ensures CreateOutcome(third, Undone(Created(first, s, name, value), s.currentEntry, 1), other) == CreateOutcome(third, s, other)
    ensures name !in s.mapping ==>
      CreateOutcome(third, Undone(Created(first, s, name, value), s.currentEntry, 1), name) == Success(true)
  {
    UndoCreate(first, s, name, value, other);
  }

  /** Undo of a drop restores the catalog set exactly. */
  lemma UndoDrop(ctx: ClientContext, s: CatalogState, name: string)
    requires Valid(s) && LookUp(ctx, s, name).Some?
    ensures Undone(Dropped(ctx, s, name), BoundIndex(ctx, s, name), 1) == s
  {
    LookUpInValid(ctx, s, name);
    UnlinkHeads(s, BoundIndex(ctx, s, name), name,
      Stamp(ctx, LookUp(ctx, s, name).value, name, true),
      MappingValue(s.mapping[name][0].index, ctx.transactionId, true));
  }

  /**
   * Undoing a version pushed on top of a chain, together with a deletion
   * marker pushed on top of its name, gives back the state below them.
   */
  lemma UnlinkHeads(s: CatalogState, index: nat, name: string, top: CatalogEntry, marker: MappingValue)
    requires index in s.entries && |s.entries[index]| >= 1 && s.entries[index][0].name == name
    requires name in s.mapping && |s.mapping[name]| >= 1 && marker.deleted
    ensures Undone(CatalogState(s.mapping[name := [marker] + s.mapping[name]],
      s.entries[index := [top] + s.entries[index]], s.currentEntry), index, 1) == s
  {
    var d := CatalogState(s.mapping[name := [marker] + s.mapping[name]],
      s.entries[index := [top] + s.entries[index]], s.currentEntry);
    var chain := d.entries[index];
    assert chain[..0] + chain[1..] == s.entries[index];
    assert d.entries[index := s.entries[index]] == s.entries;
    assert d.mapping[name][1..] == s.mapping[name];
    assert d.mapping[name := s.mapping[name]] == s.mapping;
  }

  /**
   * Undo of an alteration restores the catalog set exactly, provided the
   * newest mapping link of the name is a binding and the newest version is
   * not a placeholder (with a conflicting writer in between, Undo would
   * unlink that writer's link as well).
   */
  lemma UndoAlter(ctx: ClientContext, s: CatalogState, name: string, alter: CatalogEntry -> CatalogEntry)
    requires Valid(s) && LookUp(ctx, s, name).Some?
    requires !s.mapping[name][0].deleted && s.entries[BoundIndex(ctx, s, name)][0].contents.Some?
    ensures Undone(Altered(ctx, s, name, alter), BoundIndex(ctx, s, name), 1) == s
  {
    LookUpInValid(ctx, s, name);
    UnlinkHead(s, BoundIndex(ctx, s, name), Stamp(ctx, alter(LookUp(ctx, s, name).value), name, false));
  }

  /**
   * Undoing a version pushed on top of a live chain whose name's newest link
   * is a binding gives back the state below it.
   */
  lemma UnlinkHead(s: CatalogState, index: nat, top: CatalogEntry)
    requires index in s.entries && |s.entries[index]| >= 1 && s.entries[index][0].contents.Some?
    requires var n := s.entries[index][0].name; n in s.mapping ==> |s.mapping[n]| >= 1 && !s.mapping[n][0].deleted
    ensures Undone(CatalogState(s.mapping, s.entries[index := [top] + s.entries[index]], s.currentEntry), index, 1) == s
  {
    var a := CatalogState(s.mapping, s.entries[index := [top] + s.entries[index]], s.currentEntry);
    var chain := a.entries[index];
    assert chain[..0] + chain[1..] == s.entries[index];
    assert a.entries[index := s.entries[index]] == s.entries;
  }

  // ---------------------------------------------------------------------
  // The walks the catalog set's methods perform, on values

  /** The walk down a version chain that GetEntryForTransaction performs. */
  method ReadVersion(ctx: ClientContext, chain: seq<CatalogEntry>) returns (entry: CatalogEntry)
    requires |chain| >= 1
    ensures entry == VisibleVersion(ctx, chain)
  {
    var p := 0;
    while p < |chain| - 1 && !ctx.useTimestamp(chain[p].timestamp)
      invariant 0 <= p < |chain|
      invariant forall i :: 0 <= i < p ==> !ctx.useTimestamp(chain[i].timestamp)
    {
      p := p + 1;
    }
    FirstUsableUnique(EntryTimestamps(chain), ctx.useTimestamp, p);
    entry := chain[p];
  }

  /** The walk down a mapping chain that GetMapping performs. */
  method ReadMapping(ctx: ClientContext, chain: seq<MappingValue>) returns (link: Option<MappingValue>)
    ensures link == UsableLink(ctx, chain)
  {
    var p := 0;
    while p < |chain| && !ctx.useTimestamp(chain[p].timestamp)
      invariant 0 <= p <= |chain|
      invariant UsableLink(ctx, chain[p..]) == UsableLink(ctx, chain)
    {
      assert chain[p..][1..] == chain[p + 1..];
      p := p + 1;
    }
    if p < |chain| {
      link := Some(chain[p]);
    } else {
      link := None;
    }
  }

  /** The loop of Scan over the entry table, visiting its slots in storage order. */
  method ScanEntries(ctx: ClientContext, entries: map<nat, seq<CatalogEntry>>, order: seq<nat>)
    returns (calls: seq<(nat, CatalogEntry)>)
    requires ChainsNonEmpty(entries) && forall j :: 0 <= j < |order| ==> order[j] in entries
    ensures calls == ScanOf(ctx, entries, order)
  {
    calls := [];
    var i := 0;
    while i < |order|
      invariant 0 <= i <= |order|
      invariant calls == ScanOf(ctx, entries, order[..i])
    {
      var entry := ReadVersion(ctx, entries[order[i]]);
      assert order[..i + 1][..i] == order[..i];
      if !entry.deleted {
        calls := calls + [(order[i], entry)];
      }
      i := i + 1;
    }
    assert order[..i] == order;
  }

  /** Whether SimilarEntry counts a name: GetMapping finds a link for it that is not a deletion marker. */
  method IsBound(ctx: ClientContext, s: CatalogState, name: string) returns (bound: bool)
    ensures bound <==> name in BoundNames(ctx, s)
  {
    bound := false;
    if name in s.mapping {
      var link := ReadMapping(ctx, s.mapping[name]);
      bound := link.Some? && !link.value.deleted;
    }
  }

  /** The loop of SimilarEntry over the mapping table: a bound name at the least distance, or "". */
  method ClosestName(ctx: ClientContext, s: CatalogState, name: string, distance: (string, string) -> nat)
    returns (result: string)
    ensures BoundNames(ctx, s) == {} ==> result == ""
    ensures BoundNames(ctx, s) != {} ==>
      result in BoundNames(ctx, s) &&
      forall n :: n in BoundNames(ctx, s) ==> distance(result, name) <= distance(n, name)
  {
    result := "";
    var currentScore: Option<nat> := None;
    var remaining := s.mapping.Keys;
    ghost var seen: set<string> := {};
    while remaining != {}
      invariant remaining <= s.mapping.Keys
      invariant seen <= BoundNames(ctx, s) <= seen + remaining
      invariant currentScore.None? ==> seen == {} && result == ""
      invariant currentScore.Some? ==>
        result in seen && currentScore.value == distance(result, name) &&
        forall n :: n in seen ==> distance(result, name) <= distance(n, name)
      decreases |remaining|
    {
      var candidate :| candidate in remaining;
      var bound := IsBound(ctx, s, candidate);
      if bound {
        var score := distance(candidate, name);
        if currentScore.None? || score < currentScore.value {
          currentScore := Some(score);
          result := candidate;
        }
        seen := seen + {candidate};
      }
      remaining := remaining - {candidate};
    }
  }

  // ---------------------------------------------------------------------
  // The catalog set

  class CatalogSet {
    var mapping: map<string, seq<MappingValue>>
    var entries: map<nat, seq<CatalogEntry>>
    var currentEntry: nat

    function State(): CatalogState
      reads this
    {
      CatalogState(mapping, entries, currentEntry)
    }

    constructor ()
      ensures State() == EmptyState()
    {
      mapping := map[];
      entries := map[];
      currentEntry := 0;
    }

    /** GetEntryForTransaction: walk the chain of entry `index` from its newest version. */
    method GetEntryForTransaction(ctx: ClientContext, index: nat) returns (entry: CatalogEntry)
      requires Valid(State()) && index in entries
      ensures entry == VisibleVersion(ctx, entries[index])
    {
      entry := ReadVersion(ctx, entries[index]);
    }

    /** GetMapping: walk the mapping chain of `name` from its newest link, or take that link when `getLatest`. */
    method GetMapping(ctx: ClientContext, name: string, getLatest: bool) returns (m: Option<MappingValue>)
      requires Valid(State())
      ensures m == MappingFor(ctx, State(), name, getLatest)
    {
      if name !in mapping {
        return None;
      }
      if getLatest {
        return Some(mapping[name][0]);
      }
      m := ReadMapping(ctx, mapping[name]);
    }

    /** GetEntry: the entry bound to `name` that the transaction reads, unless it is deleted. */
    method GetEntry(ctx: ClientContext, name: string) returns (entry: Option<CatalogEntry>)
      requires Valid(State())
      ensures entry == LookUp(ctx, State(), name)
    {
      var m := GetMapping(ctx, name, false);
      if m.None? || m.value.deleted {
        return None;
      }
      LookUpInValid(ctx, State(), name);
      var current := GetEntryForTransaction(ctx, m.value.index);
      if current.deleted {
        return None;
      }
      return Some(current);
    }

    /** GetRootEntry: the newest version of the newest binding, or nothing for an unknown name. */
    method GetRootEntry(name: string) returns (entry: Option<CatalogEntry>)
      requires Valid(State())
      ensures entry == RootEntry(State(), name)
    {
      if name !in mapping {
        return None;
      }
      return Some(entries[mapping[name][0].index][0]);
    }

    /** CreateEntry: bind `name` to a new entry holding `value`. */
    method CreateEntry(ctx: ClientContext, name: string, value: CatalogEntry) returns (r: Result<bool, CatalogError>)
      requires Valid(State())
      modifies this
      ensures r == CreateOutcome(ctx, old(State()), name)
      ensures State() == if r == Success(true) then Created(ctx, old(State()), name, value) else old(State())
      ensures Valid(State())
    {
      CreatedValid(ctx, State(), name, value);
      var m := GetMapping(ctx, name, false);
      if m.Some? && !m.value.deleted {
        return Success(false);
      }
      var latest := GetMapping(ctx, name, true);
      if latest.Some? && ctx.hasConflict(latest.value.timestamp) {
        return Failure(WriteConflict(name));
      }
      var index := currentEntry;
      currentEntry := currentEntry + 1;
      entries := entries[index := [Stamp(ctx, value, name, false), Placeholder(name)]];
      PutMapping(ctx, name, index);
      return Success(true);
    }

    /** PutMapping: a new binding link for `name`, stamped with the transaction, above its current chain. */
    method PutMapping(ctx: ClientContext, name: string, index: nat)
      modifies this
      ensures entries == old(entries) && currentEntry == old(currentEntry)
      ensures mapping == old(mapping)[name := [NewMappingValue(index).(timestamp := ctx.transactionId)] +
        MappingChain(old(State()), name)]
    {
      var link := NewMappingValue(index).(timestamp := ctx.transactionId);
      var below := if name in mapping then mapping[name] else [];
      mapping := mapping[name := [link] + below];
    }

    /** DeleteMapping: a deletion marker for `name`, on the index of its newest link. */
    method DeleteMapping(ctx: ClientContext, name: string)
      requires name in mapping && |mapping[name]| >= 1
      modifies this
      ensures entries == old(entries) && currentEntry == old(currentEntry)
      ensures mapping == old(mapping)[name := [MappingValue(old(mapping)[name][0].index, ctx.transactionId, true)] +
        old(mapping)[name]]
    {
      var marker := NewMappingValue(mapping[name][0].index).(timestamp := ctx.transactionId, deleted := true);
      mapping := mapping[name := [marker] + mapping[name]];
    }

    /** The common part of AlterEntry and DropEntry: the bound index and its visible version, or the verdict. */
    method GetEntryInternal(ctx: ClientContext, name: string) returns (r: Result<bool, CatalogError>, index: nat, current: CatalogEntry)
      requires Valid(State())
      ensures r == ModifyOutcome(ctx, State(), name)
      ensures r == Success(true) ==>
        LookUp(ctx, State(), name) == Some(current) && index == BoundIndex(ctx, State(), name)
    {
      index, current := 0, Placeholder(name);
      var m := GetMapping(ctx, name, false);
      if m.None? || m.value.deleted {
        return Success(false), index, current;
      }
      index := m.value.index;
      LookUpInValid(ctx, State(), name);
      current := GetEntryForTransaction(ctx, index);
      if current.deleted {
        return Success(false), index, current;
      }
      if ctx.hasConflict(entries[index][0].timestamp) {
        return Failure(WriteConflict(name)), index, current;
      }
      r := Success(true);
    }

    /** AlterEntry: put the alteration of the visible version at the head of its chain. */
    method AlterEntry(ctx: ClientContext, name: string, alter: CatalogEntry -> CatalogEntry) returns (r: Result<bool, CatalogError>)
      requires Valid(State())
      modifies this
      ensures r == ModifyOutcome(ctx, old(State()), name)
      ensures State() == if r == Success(true) then Altered(ctx, old(State()), name, alter) else old(State())
      ensures Valid(State())
    {
      var index, current;
      r, index, current := GetEntryInternal(ctx, name);
      if r != Success(true) {
        return;
      }
      AlteredValid(ctx, State(), name, alter);
      entries := entries[index := [Stamp(ctx, alter(current), name, false)] + entries[index]];
    }

    /** DropEntry: put a deleted version at the head of the chain and a deletion marker on the name. */
    method DropEntry(ctx: ClientContext, name: string, cascade: bool, hasDependents: bool) returns (r: Result<bool, CatalogError>)
      requires Valid(State())
      modifies this
      ensures r == DropOutcome(ctx, old(State()), name, cascade, hasDependents)
      ensures State() == if r == Success(true) then Dropped(ctx, old(State()), name) else old(State())
      ensures Valid(State())
    {
      var index, current;
      r, index, current := GetEntryInternal(ctx, name);
      if r != Success(true) {
        return;
      }
      if !cascade && hasDependents {
        return Failure(DependencyConflict(name));
      }
      DroppedValid(ctx, State(), name);
      entries := entries[index := [Stamp(ctx, current, name, true)] + entries[index]];
      DeleteMapping(ctx, name);
    }

    /** Undo: make version `k` of entry `index` the one in place of its parent again. */
    method Undo(index: nat, k: nat)
      requires Valid(State()) && index in entries && 1 <= k < |entries[index]|
      modifies this
      ensures State() == Undone(old(State()), index, k) && Valid(State())
    {
      UndoneValid(State(), index, k);
      var chain := entries[index];
      var entry := chain[k];
      entries := entries[index := chain[..k - 1] + chain[k..]];
      var name := entry.name;
      if name in mapping && (mapping[name][0].deleted || entry.contents.None?) {
        if |mapping[name]| > 1 {
          mapping := mapping[name := mapping[name][1..]];
        } else {
          mapping := mapping - {name};
        }
      }
    }

    /**
     * Scan: hand the callback, slot by slot in the storage order `order` of
     * the index table, the version each slot shows the transaction, skipping
     * deleted ones.  The callback's arguments are returned, paired with their
     * slots, in the order of the calls.
     */
    method Scan(ctx: ClientContext, order: seq<nat>) returns (calls: seq<(nat, CatalogEntry)>)
      requires Valid(State()) && Enumerates(order, entries.Keys)
      ensures calls == ScanOf(ctx, entries, order)
    {
      calls := ScanEntries(ctx, entries, order);
    }

    /**
     * SimilarEntry: among the names bound for the transaction, one at the
     * least distance from `name`, or "" when there is none; `distance` is
     * the string utility's Levenshtein distance.
     */
    method SimilarEntry(ctx: ClientContext, name: string, distance: (string, string) -> nat) returns (result: string)
      ensures BoundNames(ctx, State()) == {} ==> result == ""
      ensures BoundNames(ctx, State()) != {} ==>
        result in BoundNames(ctx, State()) &&
        forall n :: n in BoundNames(ctx, State()) ==> distance(result, name) <= distance(n, name)
    {
      result := ClosestName(ctx, State(), name, distance);
    }
  }
}
