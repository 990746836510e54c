/**
 The search index of djangae/contrib/search/index.py: documents, their token entries by revision, and the
 background jobs that clean up old revisions. `add` and `remove` commit as one step, revisions are fresh,
 and a cleanup job deletes the entries of its document and revision one at a time.
 */
module SearchIndex {
  import opened Common
  import opened Tokens
  import opened Fields
  import opened SearchKeys

  /** A text field of the document class. */
  datatype FieldDef = FieldDef(indexed: bool, nullable: bool, default: Option<string>)

  datatype World = World(locale: Locale, schema: map<string, FieldDef>)

  /** The values set on a document. */
  type Data = map<string, Option<string>>

  datatype Record = Record(rev: nat, data: Data)

  /** A deferred iteration over the entries of one document at one revision. */
  datatype CleanupJob = CleanupJob(doc: int, rev: nat)

  datatype State = State(
    records: map<int, Record>,
    entries: set<Entry>,
    jobs: multiset<CleanupJob>,
    nextRev: nat,
    nextDoc: int)

  datatype Action =
    | Add(doc: int, data: Data)
    | Remove(doc: int, rev: nat)
    | Collect(job: CleanupJob, entry: Entry)
    | Finish(job: CleanupJob)

  /** A field's value, or its default where the value is not set. */
  function ValueOf(w: World, data: Data, f: string): Option<string>
    requires f in w.schema
  {
    if f in data && data[f].Some? then data[f] else w.schema[f].default
  }

  /** The tokens of one field. */
  function FieldTokens(w: World, data: Data, f: string): set<string> {
    if f in w.schema && w.schema[f].indexed then IndexedTokens(w.locale, ValueOf(w, data, f)) else {}
  }

  function FieldEntries(w: World, data: Data, f: string, doc: int, rev: nat): set<Entry> {
    set t | t in FieldTokens(w, data, f) :: Entry(t, f, doc, rev)
  }

  /** The entries of a document's data at a revision. */
  predicate IsEntryOf(w: World, data: Data, e: Entry) {
    e.field in w.schema && e.token in FieldTokens(w, data, e.field)
  }

  function DocEntries(w: World, data: Data, doc: int, rev: nat): set<Entry> {
    set f, t | f in w.schema.Keys && t in FieldTokens(w, data, f) :: Entry(t, f, doc, rev)
  }

  lemma DocEntriesOf(w: World, data: Data, doc: int, rev: nat, e: Entry)
    ensures e in DocEntries(w, data, doc, rev) <==> e.doc == doc && e.rev == rev && IsEntryOf(w, data, e)
  {
  }

  predicate Names(j: CleanupJob, e: Entry) {
    e.doc == j.doc && e.rev == j.rev
  }

  /** The document is removed at its current revision, or is already gone. */
  predicate IsCareful(s: State, doc: int, rev: nat) {
    rev < s.nextRev && (doc in s.records ==> s.records[doc].rev == rev)
  }

  predicate Enabled(s: State, a: Action) {
    match a
    case Add(_, _) => true
    case Remove(doc, rev) => IsCareful(s, doc, rev)
    case Collect(job, entry) => job in s.jobs && entry in s.entries && Names(job, entry)
    case Finish(job) => job in s.jobs && forall e :: e in s.entries ==> !Names(job, e)
  }

  /** unindex_document with the revision that the passed document carries. */
  function Unindex(s: State, doc: int, rev: nat): State {
    s.(records := s.records - {doc}, jobs := s.jobs + multiset{CleanupJob(doc, rev)})
  }

  function Apply(w: World, s: State, a: Action): State
    requires Enabled(s, a)
  {
    match a
    case Add(doc, data) =>
      s.(records := s.records[doc := Record(s.nextRev, data)],
         entries := s.entries + DocEntries(w, data, doc, s.nextRev),
         jobs := if doc in s.records then s.jobs + multiset{CleanupJob(doc, s.records[doc].rev)} else s.jobs,
         nextRev := s.nextRev + 1,
         nextDoc := Max(s.nextDoc, doc + 1))
    case Remove(doc, rev) => Unindex(s, doc, rev)
    case Collect(job, entry) => s.(entries := s.entries - {entry})
    case Finish(job) => s.(jobs := s.jobs - multiset{job})
  }

  /** Revision 0 is never given: a document without a record reports it. */
  const INITIAL := State(map[], {}, multiset{}, 1, 1)

  predicate IsRun(w: World, s: State, log: seq<Action>)
    decreases |log|, 0
  {
    log == [] || (IsRun(w, s, log[..|log| - 1]) && Enabled(After(w, s, log[..|log| - 1]), log[|log| - 1]))
  }

  function After(w: World, s: State, log: seq<Action>): State
    requires IsRun(w, s, log)
    decreases |log|, 1
  {
    if log == [] then s else Apply(w, After(w, s, log[..|log| - 1]), log[|log| - 1])
  }

  lemma RunExtend(w: World, s: State, log: seq<Action>, a: Action)
    requires IsRun(w, s, log) && Enabled(After(w, s, log), a)
    ensures IsRun(w, s, log + [a]) && After(w, s, log + [a]) == Apply(w, After(w, s, log), a)
  {
  }

  // -------------------------------------------------------------------- invariant

  /** The entry is at its live document's current revision. */
  predicate IsCurrent(s: State, e: Entry) {
    e.doc in s.records && e.rev == s.records[e.doc].rev
  }

  predicate IsCovered(s: State, e: Entry) {
    CleanupJob(e.doc, e.rev) in s.jobs
  }

  predicate Accounted(s: State) {
    forall e :: e in s.entries ==> e.rev < s.nextRev && (IsCurrent(s, e) || IsCovered(s, e))
  }

  /** Current-revision entries are exactly the tokens of the data last added. */
  ghost predicate Exact(w: World, s: State) {
    forall e :: IsCurrent(s, e) ==> (e in s.entries <==> IsEntryOf(w, s.records[e.doc].data, e))
  }

  predicate JobsAreOld(s: State) {
    forall j :: j in s.jobs ==> j.rev < s.nextRev && !(j.doc in s.records && s.records[j.doc].rev == j.rev)
  }

  predicate RecordsSound(s: State) {
    forall d :: d in s.records ==> s.records[d].rev < s.nextRev && d < s.nextDoc
  }

  ghost predicate Inv(w: World, s: State) {
    Accounted(s) && Exact(w, s) && JobsAreOld(s) && RecordsSound(s)
  }

  lemma AddInv(w: World, s: State, doc: int, data: Data)
    requires Inv(w, s)
    ensures Inv(w, Apply(w, s, Add(doc, data)))
  {
    hide IsEntryOf, DocEntries;
    var s' := Apply(w, s, Add(doc, data));
    forall e | IsCurrent(s', e) ensures e in s'.entries <==> IsEntryOf(w, s'.records[e.doc].data, e) {
      DocEntriesOf(w, data, doc, s.nextRev, e);
    }
    forall e | e in s'.entries ensures e.rev < s'.nextRev && (IsCurrent(s', e) || IsCovered(s', e)) {
      DocEntriesOf(w, data, doc, s.nextRev, e);
    }
  }

  lemma StepInv(w: World, s: State, a: Action)
    requires Inv(w, s) && Enabled(s, a)
    ensures Inv(w, Apply(w, s, a))
  {
    hide IsEntryOf, DocEntries;
    if a.Add? { AddInv(w, s, a.doc, a.data); }
  }

  /** At every reachable state entries are current or covered by a job, and the current ones are exact. */
  lemma {:induction false} RunInv(w: World, s: State, log: seq<Action>)
    requires Inv(w, s) && IsRun(w, s, log)
    ensures Inv(w, After(w, s, log))
    decreases |log|
  {
    if log != [] {
      RunInv(w, s, log[..|log| - 1]);
      StepInv(w, After(w, s, log[..|log| - 1]), log[|log| - 1]);
    }
  }

  lemma ReachableInv(w: World, log: seq<Action>)
    requires IsRun(w, INITIAL, log)
    ensures Inv(w, After(w, INITIAL, log))
  {
    RunInv(w, INITIAL, log);
  }

  // ------------------------------------------------------------- what was last added

  /** The data of the last Add of a document, unless it was removed after that. */
  function LastAdded(log: seq<Action>, d: int): Option<Data> {
    if log == [] then None
    else
      var a := log[|log| - 1];
      if a.Add? && a.doc == d then Some(a.data)
      else if a.Remove? && a.doc == d then None
      else LastAdded(log[..|log| - 1], d)
  }

  /** The records are those of the documents last added, with the data given then. */
  lemma {:induction false} RecordsAreLastAdded(w: World, log: seq<Action>, d: int)
    requires IsRun(w, INITIAL, log)
    ensures var records := After(w, INITIAL, log).records;
            if d in records then LastAdded(log, d) == Some(records[d].data) else LastAdded(log, d) == None
    decreases |log|
  {
    if log != [] {
      RecordsAreLastAdded(w, log[..|log| - 1], d);
    }
  }

  /**
   At every reachable state the current entries of a document in an indexed field are the tokens of the value that it
   was last added with, or of the field's default if it had none; other fields have no entries.
   */
  lemma EntriesAreOfValue(w: World, log: seq<Action>, d: int, f: string, t: string)
    requires IsRun(w, INITIAL, log) && LastAdded(log, d).Some?
    ensures var s, data := After(w, INITIAL, log), LastAdded(log, d).value;
            && d in s.records
            && var stored := Entry(t, f, d, s.records[d].rev) in s.entries;
               var indexed := f in w.schema && w.schema[f].indexed;
               && (stored ==> indexed)
               && (indexed && f in data && data[f].Some? ==> (stored <==> t in IndexedTokens(w.locale, data[f])))
               && (indexed && (f in data ==> data[f].None?)
                   ==> (stored <==> t in IndexedTokens(w.locale, w.schema[f].default)))
  {
    hide IndexedTokens;
    RecordsAreLastAdded(w, log, d);
    ReachableInv(w, log);
    var s := After(w, INITIAL, log);
    var e := Entry(t, f, d, s.records[d].rev);
    assert IsCurrent(s, e);
    assert e in s.entries <==> IsEntryOf(w, s.records[d].data, e);
  }

  /** A generated id is that of no existing document. */
  lemma NextDocIsNew(w: World, log: seq<Action>)
    requires IsRun(w, INITIAL, log)
    ensures After(w, INITIAL, log).nextDoc !in After(w, INITIAL, log).records
  {
    ReachableInv(w, log);
  }

  // --------------------------------------------------------------------- draining

  /** Entry e belongs to the current data of a live document. */
  predicate IsLive(w: World, s: State, e: Entry) {
    IsCurrent(s, e) && IsEntryOf(w, s.records[e.doc].data, e)
  }

  predicate IsDrain(a: Action) {
    a.Collect? || a.Finish?
  }

  /**
   Draining in any order: the documents stay, every run is at most |entries| + |jobs| steps long, and it can
   go on until no job is left; the entries are then exactly those of the live documents' current data.
   */
  lemma {:induction false} DrainIsExact(w: World, s: State, log: seq<Action>)
    requires Inv(w, s) && IsRun(w, s, log) && forall i :: 0 <= i < |log| ==> IsDrain(log[i])
    ensures After(w, s, log).records == s.records
    ensures |log| <= |s.entries| + |s.jobs|
    ensures After(w, s, log).jobs == multiset{} <==> forall a :: IsDrain(a) ==> !Enabled(After(w, s, log), a)
    ensures After(w, s, log).jobs == multiset{} ==>
              forall e :: e in After(w, s, log).entries <==> IsLive(w, s, e)
  {
    DrainShrinks(w, s, log);
    RunInv(w, s, log);
    hide IsRun;
    var d := After(w, s, log);
    if d.jobs != multiset{} {
      var a := DrainStep(d);
    } else {
      DrainedIsExact(w, d);
      assert forall e :: IsLive(w, d, e) <==> IsLive(w, s, e);
    }
  }

  lemma DrainedIsExact(w: World, s: State)
    requires Inv(w, s) && s.jobs == multiset{}
    ensures forall e :: e in s.entries <==> IsLive(w, s, e)
    ensures forall a :: IsDrain(a) ==> !Enabled(s, a)
  {
  }

  lemma {:induction false} DrainShrinks(w: World, s: State, log: seq<Action>)
    requires IsRun(w, s, log) && forall i :: 0 <= i < |log| ==> IsDrain(log[i])
    ensures After(w, s, log).records == s.records
    ensures |After(w, s, log).entries| + |After(w, s, log).jobs| + |log| == |s.entries| + |s.jobs|
    decreases |log|
  {
    if log != [] {
      DrainShrinks(w, s, log[..|log| - 1]);
    }
  }

  lemma DrainStep(s: State) returns (a: Action)
    requires s.jobs != multiset{}
    ensures IsDrain(a) && Enabled(s, a)
  {
    var job :| job in s.jobs;
    if e :| e in s.entries && Names(job, e) {
      a := Collect(job, e);
    } else {
      a := Finish(job);
    }
  }

  /**
   Removing a document through an object that carries another revision keeps the invariant exactly when the
   revision is the current one, or there is nothing to clean up.
   */
  lemma StaleRemoval(w: World, s: State, doc: int, rev: nat)
    requires Inv(w, s) && doc in s.records && rev < s.nextRev
    ensures Inv(w, Unindex(s, doc, rev))
            <==> rev == s.records[doc].rev || DocEntries(w, s.records[doc].data, doc, s.records[doc].rev) == {}
  {
    hide IsEntryOf, DocEntries;
    var s', data, current := Unindex(s, doc, rev), s.records[doc].data, s.records[doc].rev;
    if rev != current {
      assert CleanupJob(doc, current) !in s.jobs;
      if e :| e in DocEntries(w, data, doc, current) {
        DocEntriesOf(w, data, doc, current, e);
        assert IsCurrent(s, e) && e in s'.entries && !IsCurrent(s', e) && !IsCovered(s', e);
      } else {
        forall e | e in s'.entries ensures IsCurrent(s', e) || IsCovered(s', e) {
          DocEntriesOf(w, data, doc, current, e);
          assert IsCurrent(s, e) || IsCovered(s, e);
        }
      }
    }
  }

  /** A document added twice and then removed through an object that still carries its first revision. */
  lemma StaleRemovalStrands(w: World, data: Data, e: Entry)
    requires IsEntryOf(w, data, e)
    ensures var log, stranded := [Add(1, data), Add(1, data)], Entry(e.token, e.field, 1, 2);
            && IsRun(w, INITIAL, log)
            && var s := After(w, INITIAL, log);
               1 in s.records && s.records[1].rev == 2 && 1 < s.nextRev
               && stranded in Unindex(s, 1, 1).entries && !IsCurrent(Unindex(s, 1, 1), stranded)
               && !IsCovered(Unindex(s, 1, 1), stranded)
  {
    hide IsEntryOf, DocEntries;
    var one, stranded := [Add(1, data)], Entry(e.token, e.field, 1, 2);
    assert IsRun(w, INITIAL, []);
    RunExtend(w, INITIAL, [], Add(1, data));
    assert [] + one == one;
    RunExtend(w, INITIAL, one, Add(1, data));
    assert one + one == [Add(1, data), Add(1, data)];
    DocEntriesOf(w, data, 1, 2, stranded);
    assert IsEntryOf(w, data, stranded) by { SameEntry(w, data, e, stranded); }
  }

  lemma SameEntry(w: World, data: Data, e: Entry, f: Entry)
    requires IsEntryOf(w, data, e) && f.token == e.token && f.field == e.field
    ensures IsEntryOf(w, data, f)
  {
  }

  /** What no job covers is never collected. */
  lemma {:induction false} StrandedStays(w: World, s: State, log: seq<Action>, e: Entry)
    requires IsRun(w, s, log) && forall i :: 0 <= i < |log| ==> IsDrain(log[i])
    requires e in s.entries && !IsCovered(s, e)
    ensures e in After(w, s, log).entries && !IsCovered(After(w, s, log), e)
    decreases |log|
  {
    if log != [] {
      StrandedStays(w, s, log[..|log| - 1], e);
    }
  }

  // --------------------------------------------------------------------- the code

  datatype IndexError = IntegrityError

  /** The steps of adding documents under these ids. */
  ghost function Adds(ids: seq<int>, documents: seq<Document>): seq<Action>
    requires |ids| <= |documents|
  {
    seq(|ids|, i requires 0 <= i < |ids| => Add(ids[i], documents[i].data))
  }

  function Ids(ids: seq<int>): set<int> {
    set id | id in ids
  }

  lemma IdsNext(ids: seq<int>, id: int)
    ensures Ids(ids + [id]) == Ids(ids) + {id}
  {
  }

  lemma AddsNone(documents: seq<Document>)
    ensures Adds([], documents) == [] && Ids([]) == {}
  {
  }

  lemma AddsNext(ids: seq<int>, documents: seq<Document>)
    requires 0 < |ids| <= |documents|
    ensures var n := |ids| - 1;
            Adds(ids, documents) == Adds(ids[..n], documents) + [Add(ids[n], documents[n].data)]
  {
  }

  /** What remove accepts: an id, or a document with its id and the revision of its record, if it has one. */
  datatype Item = ById(key: int) | ByDocument(id: Option<int>, revision: Option<nat>)

  /** A document with a record has an id. */
  predicate WfItem(item: Item) {
    item.ByDocument? && item.revision.Some? ==> item.id.Some?
  }

  function IdOf(item: Item): Option<int> {
    if item.ById? then Some(item.key) else item.id
  }

  /**
   Whether an item counts as removed while these documents have records. A document that has a record is not
   looked up again, so it counts even if the record is gone.
   */
  predicate Counts(keys: set<int>, item: Item) {
    (item.ByDocument? && item.revision.Some?) || (IdOf(item).Some? && IdOf(item).value in keys)
  }

  /** The revision whose entries are handed to the job: that of the record, or 0 for a document without one. */
  function RevisionOf(records: map<int, Record>, item: Item): nat
    requires Counts(records.Keys, item)
  {
    if item.ById? then records[item.key].rev else if item.revision.Some? then item.revision.value else 0
  }

  /** The item carries the current record of its document, unless that is gone or unknown. */
  predicate CarefulItem(s: State, item: Item) {
    WfItem(item)
    && (item.ByDocument? && Counts(s.records.Keys, item)
        ==> IsCareful(s, item.id.value, RevisionOf(s.records, item)))
  }

  function Without(keys: set<int>, item: Item): set<int> {
    if IdOf(item).Some? then keys - {IdOf(item).value} else keys
  }

  /** How many of the items count, each as removed before the next. */
  function CountOf(keys: set<int>, items: seq<Item>): nat {
    if items == [] then 0
    else (if Counts(keys, items[0]) then 1 else 0) + CountOf(Without(keys, items[0]), items[1..])
  }

  predicate IsNamed(items: seq<Item>, d: int) {
    exists i :: 0 <= i < |items| && IdOf(items[i]) == Some(d)
  }

  function AfterRemoval(s: State, item: Item): State
    requires WfItem(item)
  {
    if Counts(s.records.Keys, item) then Unindex(s, IdOf(item).value, RevisionOf(s.records, item)) else s
  }

  function AfterRemovals(s: State, items: seq<Item>): State
    requires forall i :: 0 <= i < |items| ==> WfItem(items[i])
    decreases |items|
  {
    if items == [] then s else AfterRemovals(AfterRemoval(s, items[0]), items[1..])
  }

  lemma RemovalRecords(s: State, item: Item)
    requires WfItem(item)
    ensures AfterRemoval(s, item).records == if IdOf(item).Some? then s.records - {IdOf(item).value} else s.records
    ensures AfterRemoval(s, item).nextRev == s.nextRev
    ensures AfterRemoval(s, item).records.Keys == Without(s.records.Keys, item)
  {
    if IdOf(item).Some? && !Counts(s.records.Keys, item) {
      assert s.records - {IdOf(item).value} == s.records;
    }
  }

  /**
   Removals take exactly the items' documents out of the records, leave the entries to jobs, one for each item that
   counts, and change no record.
   */
  lemma {:induction false} RemovalsTake(s: State, items: seq<Item>, d: int)
    requires forall i :: 0 <= i < |items| ==> WfItem(items[i])
    ensures var r := AfterRemovals(s, items);
            && (d in r.records <==> d in s.records && !IsNamed(items, d))
            && (d in r.records ==> r.records[d] == s.records[d])
            && r.entries == s.entries && r.nextRev == s.nextRev && r.nextDoc == s.nextDoc
            && s.jobs <= r.jobs && |r.jobs| == |s.jobs| + CountOf(s.records.Keys, items)
    decreases |items|
  {
    if items != [] {
      RemovalRecords(s, items[0]);
      RemovalsTake(AfterRemoval(s, items[0]), items[1..], d);
      NamedFirst(items, d);
      hide AfterRemovals, CountOf, IsNamed;
    }
  }

  lemma NamedFirst(items: seq<Item>, d: int)
    requires items != []
    ensures IsNamed(items, d) <==> IdOf(items[0]) == Some(d) || IsNamed(items[1..], d)
  {
    if i :| 0 <= i < |items| && IdOf(items[i]) == Some(d) {
      assert i > 0 ==> items[1..][i - 1] == items[i];
    }
  }

  /** Removals keep the other items careful. */
  lemma StaysCareful(s: State, s': State, item: Item)
    requires CarefulItem(s, item) && s'.nextRev == s.nextRev
    requires forall d :: d in s'.records ==> d in s.records && s'.records[d] == s.records[d]
    ensures CarefulItem(s', item)
  {
  }

  /** A Document: the id and the revision of its _record are set when it is added. */
  class Document {
    var id: Option<int>
    var revision: Option<nat>
    const data: Data

    /** What remove reads of it. */
    function AsItem(): Item
      reads this
    {
      ByDocument(id, revision)
    }

    constructor (id: Option<int>, data: Data)
      ensures this.id == id && this.data == data && revision == None
    {
      this.id, this.data, revision := id, data, None;
    }
  }

  class Index {
    const world: World
    var records: map<int, Record>
    var entries: set<Entry>
    var jobs: multiset<CleanupJob>
    var nextRev: nat
    var nextDoc: int
    ghost var log: seq<Action>

    ghost function Abs(): State
      reads this
    {
      State(records, entries, jobs, nextRev, nextDoc)
    }

    ghost predicate Valid()
      reads this
    {
      IsRun(world, INITIAL, log) && Abs() == After(world, INITIAL, log)
    }

    constructor (world: World)
      ensures Valid() && this.world == world && Abs() == INITIAL
    {
      this.world := world;
      records, entries, jobs, nextRev, nextDoc := map[], {}, multiset{}, 1, 1;
      log := [];
    }

    /** Records that the fields have just taken a step. */
    ghost method LogStep(a: Action, was: State)
      requires IsRun(world, INITIAL, log) && was == After(world, INITIAL, log)
      requires Enabled(was, a) && Abs() == Apply(world, was, a)
      modifies this`log
      ensures Valid() && log == old(log) + [a]
    {
      RunExtend(world, INITIAL, log, a);
      log := log + [a];
    }

    /** The tokens of one field as index_document computes them. */
    method TokensToIndex(value: Option<string>) returns (r: set<string>)
      ensures r == IndexedTokens(world.locale, value)
    {
      hide NormalizeValue, TokenizeContent, CleanToken;
      var normal := NormalizeValue(world.locale, value);
      if normal.None? {
        return {};
      }
      var tokens := TokenizeContentLoop(world.locale.cc, normal.value);
      r := {};
      var rest := tokens;
      while rest != {}
        invariant rest <= tokens
        invariant r == set t | t in tokens - rest && CleanToken(world.locale.cc, t) != ""
                         :: CleanToken(world.locale.cc, t)
        decreases rest
      {
        var token :| token in rest;
        var cleaned := CleanTokenLoop(world.locale.cc, token);
        if cleaned != "" {
          r := r + {cleaned};
        }
        rest := rest - {token};
      }
      assert tokens - rest == tokens;
    }

    /** get_or_create for every token of one field. */
    method IndexField(f: string, tokens: set<string>, doc: int, rev: nat)
      modifies this`entries
      ensures entries == old(entries) + set t | t in tokens :: Entry(t, f, doc, rev)
    {
      var rest := tokens;
      while rest != {}
        invariant rest <= tokens
        invariant entries == old(entries) + set t | t in tokens - rest :: Entry(t, f, doc, rev)
        decreases rest
      {
        var token :| token in rest;
        entries := entries + {Entry(token, f, doc, rev)};
        rest := rest - {token};
      }
      assert tokens - rest == tokens;
    }

    /** index_document */
    method IndexDocument(doc: int, rev: nat, data: Data)
      modifies this`entries
      ensures entries == old(entries) + DocEntries(world, data, doc, rev)
      ensures forall e :: e in entries - old(entries)
                          ==> && e.doc == doc && e.rev == rev && e.field in world.schema && world.schema[e.field].indexed
                              && e.token in IndexedTokens(world.locale,
                                                          if e.field in data && data[e.field].Some? then data[e.field]
                                                          else world.schema[e.field].default)
    {
      hide IndexedTokens;
      var rest := world.schema.Keys;
      while rest != {}
        invariant rest <= world.schema.Keys
        invariant entries == old(entries)
                    + set f, t | f in world.schema.Keys - rest && t in FieldTokens(world, data, f)
                        :: Entry(t, f, doc, rev)
        decreases rest
      {
        var f :| f in rest;
        ghost var before := entries;
        if world.schema[f].indexed {
          var tokens := TokensToIndex(ValueOf(world, data, f));
          IndexField(f, tokens, doc, rev);
        }
        assert entries == before + FieldEntries(world, data, f, doc, rev);
        FieldsNext(data, world.schema.Keys - rest, f, doc, rev);
        assert world.schema.Keys - (rest - {f}) == (world.schema.Keys - rest) + {f};
        rest := rest - {f};
      }
      assert world.schema.Keys - rest == world.schema.Keys;
    }

    lemma FieldsNext(data: Data, fields: set<string>, f: string, doc: int, rev: nat)
      ensures (set x, t | x in fields + {f} && t in FieldTokens(world, data, x) :: Entry(t, x, doc, rev))
              == (set x, t | x in fields && t in FieldTokens(world, data, x) :: Entry(t, x, doc, rev))
                 + FieldEntries(world, data, f, doc, rev)
    {
    }

    /** One turn of the loop in add, for a document that has an id: index or reindex it. */
    method AddWithId(id: int, document: Document)
      requires Valid()
      modifies this, document
      ensures Valid() && log == old(log) + [Add(id, document.data)]
      ensures document.id == Some(id) && document.revision == Some(old(nextRev))
      ensures records == old(records)[id := Record(old(nextRev), document.data)]
      ensures entries == old(entries) + DocEntries(world, document.data, id, old(nextRev))
      ensures jobs == old(jobs)
                      + if id in old(records) then multiset{CleanupJob(id, old(records)[id].rev)} else multiset{}
    {
      ghost var was := Abs();
      hide IsRun, After, DocEntries;
      if id in records {
        jobs := jobs + multiset{CleanupJob(id, records[id].rev)};
      }
      records := records[id := Record(nextRev, document.data)];
      document.id := Some(id);
      document.revision := Some(nextRev);
      IndexDocument(id, nextRev, document.data);
      nextRev := nextRev + 1;
      nextDoc := Max(nextDoc, id + 1);
      LogStep(Add(id, document.data), was);
    }

    /** One turn of the loop in add: a document without an id gets a new one. */
    method AddOne(document: Document) returns (created: bool)
      requires Valid()
      modifies this, document
      ensures CarefulItem(Abs(), document.AsItem())
      ensures Valid() && document.id.Some? && log == old(log) + [Add(document.id.value, document.data)]
      ensures old(document.id).Some? ==> document.id == old(document.id)
      ensures created <==> document.id.value !in old(records)
      ensures old(document.id).None? ==> created
      ensures document.revision == Some(old(nextRev))
      ensures records == old(records)[document.id.value := Record(old(nextRev), document.data)]
    {
      NextDocIsNew(world, log);
      hide IsRun, After, Apply;
      var id := if document.id.Some? then document.id.value else nextDoc;
      created := id !in records;
      AddWithId(id, document);
    }

    /** Every document has a value in each field that may not be null. */
    predicate AllComplete(documents: seq<Document>) {
      forall i, f :: 0 <= i < |documents| && f in world.schema && !world.schema[f].nullable
                     ==> f in documents[i].data && documents[i].data[f].Some?
    }

    /** _validate_documents */
    method ValidateDocuments(documents: seq<Document>) returns (complete: bool)
      ensures complete <==> AllComplete(documents)
    {
      for i := 0 to |documents|
        invariant AllComplete(documents[..i])
      {
        var rest := world.schema.Keys;
        while rest != {}
          invariant rest <= world.schema.Keys
          invariant forall f :: f in world.schema && f !in rest && !world.schema[f].nullable
                                ==> f in documents[i].data && documents[i].data[f].Some?
          decreases rest
        {
          var f :| f in rest;
          if !world.schema[f].nullable && (f !in documents[i].data || documents[i].data[f].None?) {
            return false;
          }
          rest := rest - {f};
        }
        assert documents[..i + 1] == documents[..i] + [documents[i]];
      }
      assert documents[..|documents|] == documents;
      complete := true;
    }

    /** The loop in add; the result lists the ids that were new. A document may occur more than once. */
    method AddEach(documents: seq<Document>) returns (added: seq<int>, ids: seq<int>)
      requires Valid()
      modifies this, documents
      ensures Valid()
      ensures |ids| == |documents| && log == old(log) + Adds(ids, documents)
      ensures forall i :: 0 <= i < |documents| ==> documents[i].id == Some(ids[i])
      ensures Ids(added) == Ids(ids) - old(records).Keys
    {
      hide IsRun, After, Valid, Adds, Ids;
      ids, added := [], [];
      AddsNone(documents);
      while |ids| < |documents|
        invariant Valid() && |ids| <= |documents|
        invariant log == old(log) + Adds(ids, documents)
        invariant forall i :: 0 <= i < |ids| ==> documents[i].id == Some(ids[i])
        invariant records.Keys == old(records).Keys + Ids(ids)
        invariant Ids(added) == Ids(ids) - old(records).Keys
      {
        var created := AddOne(documents[|ids|]);
        var id := documents[|ids|].id.value;
        IdsNext(ids, id);
        IdsNext(added, id);
        ids := ids + [id];
        AddsNext(ids, documents);
        if created {
          added := added + [id];
        }
      }
    }

    /** add: all documents are checked before anything is written; then each is added in turn. */
    method AddAll(documents: seq<Document>) returns (r: Result<seq<int>, IndexError>, ids: seq<int>)
      requires Valid()
      modifies this, documents
      ensures Valid()
      ensures r.Ok? <==> AllComplete(documents)
      ensures r.Err? ==> log == old(log) && Abs() == old(Abs())
      ensures r.Ok? ==> |ids| == |documents| && log == old(log) + Adds(ids, documents)
      ensures r.Ok? ==> forall i :: 0 <= i < |documents| ==> documents[i].id == Some(ids[i])
      ensures r.Ok? ==> forall id :: id in r.value <==> id in ids && id !in old(records)
    {
      hide IsRun, After, AllComplete, Valid, Adds;
      var complete := ValidateDocuments(documents);
      if !complete {
        return Err(IntegrityError), [];
      }
      var added;
      added, ids := AddEach(documents);
      forall id ensures id in added <==> id in ids && id !in old(records) {
        assert id in Ids(added) <==> id in Ids(ids) && id !in old(records).Keys;
      }
      r := Ok(added);
    }

    /** unindex_document: hands the entries at the item's revision to a job and deletes the record. */
    method RemoveItem(item: Item) returns (removed: bool)
      requires WfItem(item)
      modifies this
      ensures Abs() == AfterRemoval(old(Abs()), item)
      ensures match item
              case ById(key) =>
                && (removed <==> key in old(records))
                && (removed ==> Abs() == Unindex(old(Abs()), key, old(records)[key].rev))
              case ByDocument(id, Some(revision)) => removed && Abs() == Unindex(old(Abs()), id.value, revision)
              case ByDocument(id, None) =>
                && (removed <==> id.Some? && id.value in old(records))
                && (removed ==> Abs() == Unindex(old(Abs()), id.value, 0))
      ensures !removed ==> Abs() == old(Abs())
      ensures removed <==> Counts(old(records).Keys, item)
      ensures old(Valid()) && CarefulItem(old(Abs()), item)
              ==> && Valid()
                  && log == if removed then old(log) + [Remove(IdOf(item).value, RevisionOf(old(records), item))]
                            else old(log)
    {
      removed := Counts(records.Keys, item);
      if removed {
        ghost var was, valid := Abs(), Valid();
        ghost var id, rev := IdOf(item).value, RevisionOf(records, item);
        jobs := jobs + multiset{CleanupJob(IdOf(item).value, RevisionOf(records, item))};
        records := records - {IdOf(item).value};
        if valid {
          ReachableInv(world, log);
          hide IsRun, After;
          if IsCareful(was, id, rev) { LogStep(Remove(id, rev), was); }
        }
      }
    }

    /** Every item carries the current record of its document, or its document is gone. */
    ghost predicate AllCareful(items: seq<Item>)
      reads this
    {
      forall i :: 0 <= i < |items| ==> CarefulItem(Abs(), items[i])
    }

    /**
     remove: each item in turn, whether id or document; ids without a record are passed over. If all items are
     careful, the index takes that many Remove steps.
     */
    method RemoveAll(items: seq<Item>) returns (count: nat)
      requires forall i :: 0 <= i < |items| ==> WfItem(items[i])
      modifies this
      ensures Abs() == AfterRemovals(old(Abs()), items) && count == CountOf(old(records).Keys, items)
      ensures old(Valid() && AllCareful(items))
              ==> && Valid() && |log| == |old(log)| + count && old(log) <= log
                  && forall i :: |old(log)| <= i < |log| ==> log[i].Remove?
    {
      hide IsRun, After, Valid, Counts, CarefulItem, AfterRemoval;
      count := 0;
      ghost var careful := Valid() && AllCareful(items);
      for i := 0 to |items|
        invariant AfterRemovals(Abs(), items[i..]) == AfterRemovals(old(Abs()), items)
        invariant count + CountOf(records.Keys, items[i..]) == CountOf(old(records).Keys, items)
        invariant careful ==> Valid() && forall k :: i <= k < |items| ==> CarefulItem(Abs(), items[k])
        invariant careful ==> |log| == |old(log)| + count && old(log) <= log
        invariant careful ==> forall k :: |old(log)| <= k < |log| ==> log[k].Remove?
      {
        ghost var was := Abs();
        var removed := RemoveItem(items[i]);
        assert items[i..][1..] == items[i + 1..];
        RemovalRecords(was, items[i]);
        if careful {
          forall k | i < k < |items| ensures CarefulItem(Abs(), items[k]) {
            StaysCareful(was, Abs(), items[k]);
          }
        }
        if removed {
          count := count + 1;
        }
      }
    }

    /** _destroy_record on one entry of a running cleanup job. */
    method CollectOne(job: CleanupJob, entry: Entry)
      requires Valid() && Enabled(Abs(), Collect(job, entry))
      modifies this
      ensures Valid() && log == old(log) + [Collect(job, entry)]
      ensures entries == old(entries) - {entry} && records == old(records) && jobs == old(jobs)
    {
      ghost var was := Abs();
      entries := entries - {entry};
      LogStep(Collect(job, entry), was);
    }
  }
}
