/** The partition logs of the broker kept in commit logs: a crash of those is a restart of the broker. */
module BrokerStorage {
  import opened Basics
  import opened RecordBatches
  import opened LogStates
  import opened LogRecovery
  import opened PartitionLogs
  import opened Topics
  import opened RetryLineage
  import opened BrokerLogs

  /** The commit log of one partition, and the batches of its segments. */
  datatype Stored = Stored(opts: Options, st: LogState, chunks: seq<seq<RecordBatch>>)

  type StoreMap = map<bytes, seq<Stored>>

  ghost predicate Backs(s: Stored, log: PartitionLog) {
    && s.opts.segmentBytes >= BATCH_HEADER_BYTES
    && Represents(s.opts, s.st, s.chunks) && !s.st.closed && Batches(s.chunks) == log
  }

  ghost predicate AllBack(ss: seq<Stored>, logs: seq<PartitionLog>) {
    |ss| == |logs| && forall p :: 0 <= p < |ss| ==> Backs(ss[p], logs[p])
  }

  /** Every partition log of the broker is what its commit log holds. */
  ghost predicate Backed(stores: StoreMap, topics: TopicMap) {
    stores.Keys == topics.Keys && forall t :: t in topics ==> AllBack(stores[t], topics[t])
  }

  /** At which byte of its last segment file the crash cuts each log. */
  type Cuts = (bytes, nat) -> nat

  predicate CutsAt(s: Stored, cut: nat) {
    s.st.segments != [] && cut <= |s.st.segments[|s.st.segments| - 1].file|
  }

  predicate CutsFit(stores: StoreMap, cuts: Cuts) {
    forall t, p: nat :: t in stores && p < |stores[t]| ==> CutsAt(stores[t][p], cuts(t, p))
  }

  /** What one log opens to, in either recovery mode, after the crash. */
  ghost predicate OpensTo(s: Stored, cut: nat, s': Stored)
    requires CutsAt(s, cut)
  {
    && s'.opts == s.opts
    && forall strict :: Open(s.opts.(strictRecovery := strict), CrashFiles(s.st.segments, cut)).0 == Ok(s'.st)
  }

  ghost predicate Reopened(stores: StoreMap, cuts: Cuts, stores': StoreMap)
    requires CutsFit(stores, cuts)
  {
    && stores'.Keys == stores.Keys
    && (forall t :: t in stores ==> |stores'[t]| == |stores[t]|)
    && forall t, p: nat :: t in stores && p < |stores[t]| ==> OpensTo(stores[t][p], cuts(t, p), stores'[t][p])
  }

  /** The commit log a crash leaves of one, once it is open again. */
  ghost function Survivor(s: Stored, cut: nat): Stored
    requires CutsAt(s, cut) && s.chunks != []
  {
    var found := Open(s.opts, CrashFiles(s.st.segments, cut)).0;
    Stored(s.opts, if found.Ok? then found.value else s.st, Surviving(s.chunks, cut))
  }

  lemma SurvivorOpens(s: Stored, cut: nat, log: PartitionLog)
    requires CutsAt(s, cut) && Backs(s, log)
    ensures s.chunks != [] && OpensTo(s, cut, Survivor(s, cut))
    ensures Backs(Survivor(s, cut), Batches(Survivor(s, cut).chunks)) && Batches(Survivor(s, cut).chunks) <= log
  {
    hide Represents, Open, CrashFiles, Batches, Surviving;
    var st' := CrashCutsShort(s.opts, s.st, s.chunks, cut);
    assert s.opts.(strictRecovery := s.opts.strictRecovery) == s.opts;
  }

  ghost function SurvivorsOf(ss: seq<Stored>, t: bytes, cuts: Cuts): (r: seq<Stored>)
    requires forall p: nat :: p < |ss| ==> CutsAt(ss[p], cuts(t, p)) && ss[p].chunks != []
    ensures |r| == |ss| && forall p: nat :: p < |r| ==> r[p] == Survivor(ss[p], cuts(t, p))
  {
    seq(|ss|, p requires 0 <= p < |ss| => Survivor(ss[p], cuts(t, p)))
  }

  ghost function LogsOf(ss: seq<Stored>): (r: seq<PartitionLog>)
    ensures |r| == |ss| && forall p :: 0 <= p < |r| ==> r[p] == Batches(ss[p].chunks)
  {
    seq(|ss|, p requires 0 <= p < |ss| => Batches(ss[p].chunks))
  }

  lemma TopicSurvives(ss: seq<Stored>, logs: seq<PartitionLog>, t: bytes, cuts: Cuts)
    requires AllBack(ss, logs) && forall p: nat :: p < |ss| ==> CutsAt(ss[p], cuts(t, p))
    ensures forall p: nat :: p < |ss| ==> ss[p].chunks != []
    ensures var ss' := SurvivorsOf(ss, t, cuts);
      && AllBack(ss', LogsOf(ss')) && PartitionsExtend(LogsOf(ss'), logs)
      && forall p: nat :: p < |ss| ==> OpensTo(ss[p], cuts(t, p), ss'[p])
  {
    hide Backs, OpensTo, Survivor, Batches;
    forall p: nat | p < |ss|
      ensures ss[p].chunks != [] && OpensTo(ss[p], cuts(t, p), Survivor(ss[p], cuts(t, p)))
      ensures Backs(Survivor(ss[p], cuts(t, p)), Batches(Survivor(ss[p], cuts(t, p)).chunks))
      ensures Batches(Survivor(ss[p], cuts(t, p)).chunks) <= logs[p]
    {
      SurvivorOpens(ss[p], cuts(t, p), logs[p]);
    }
  }

  /** A crash that cuts the last segment file of every partition at any byte, and opening all of them
      again in whatever mode, leaves the broker with its topics, each log cut short by whole batches:
      what a restart of the broker finds. */
  lemma CrashIsRestart(topics: TopicMap, stores: StoreMap, cuts: Cuts) returns (stores': StoreMap, kept: TopicMap)
    requires Backed(stores, topics) && CutsFit(stores, cuts)
    ensures Reopened(stores, cuts, stores') && Backed(stores', kept) && CutShort(topics, kept)
  {
    hide Backs, OpensTo, Survivor, AllBack, PartitionsExtend, CutsAt;
    forall t | t in topics ensures TopicFits(stores[t], t, cuts) {
      TopicSurvives(stores[t], topics[t], t, cuts);
    }
    stores' := map t | t in stores :: SurvivorsOf(stores[t], t, cuts);
    kept := map t | t in stores :: LogsOf(SurvivorsOf(stores[t], t, cuts));
    forall t | t in topics
      ensures AllBack(stores'[t], kept[t]) && PartitionsExtend(kept[t], topics[t])
      ensures forall p: nat :: p < |stores[t]| ==> OpensTo(stores[t][p], cuts(t, p), stores'[t][p])
    {
      TopicSurvives(stores[t], topics[t], t, cuts);
    }
  }

  ghost predicate TopicFits(ss: seq<Stored>, t: bytes, cuts: Cuts) {
    forall p: nat :: p < |ss| ==> CutsAt(ss[p], cuts(t, p)) && ss[p].chunks != []
  }
}
