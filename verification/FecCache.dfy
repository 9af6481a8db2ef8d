/** The eight-entry cache of FEC contexts, evicting the least recently used. */
module FecCache {
  import opened Bytes
  import opened ErasureCode

  const FEC_CACHE_SIZE: nat := 8

  /** fec_cache_entry_t; `live` is fec != NULL, and a live entry's context has the entry's parameters. */
  datatype Entry = Entry(params: FecParams, live: bool, lastUsed: u64)

  function Fresh(): (r: seq<Entry>)
    ensures |r| == FEC_CACHE_SIZE
  {
    seq(FEC_CACHE_SIZE, _ => Entry(FecParams(ReedSolomon, 0, 0, 0), false, 0))
  }

  predicate Serves(e: Entry, f: FecParams) { e.live && e.params == f }

  function Hit(entries: seq<Entry>, f: FecParams): (i: nat)
    ensures i <= |entries| && (i < |entries| ==> Serves(entries[i], f))
    ensures forall j :: 0 <= j < i ==> !Serves(entries[j], f)
  {
    if entries == [] then 0
    else if Serves(entries[0], f) then 0
    else 1 + Hit(entries[1..], f)
  }

  /** The first entry with the smallest timestamp. */
  function Victim(entries: seq<Entry>): (i: nat)
    requires entries != []
    ensures i < |entries|
    ensures forall j :: 0 <= j < |entries| ==> entries[i].lastUsed <= entries[j].lastUsed
    ensures forall j :: 0 <= j < i ==> entries[i].lastUsed < entries[j].lastUsed
  {
    var n := |entries| - 1;
    if n == 0 then 0
    else
      var i := Victim(entries[..n]);
      if entries[n].lastUsed < entries[i].lastUsed then n else i
  }

  /** get_cached_fec; `created` says whether a new context could be made. Also the parameters of the context returned.
      */
  function Request(entries: seq<Entry>, f: FecParams, now: u64, created: bool): (r: (seq<Entry>, Option<FecParams>))
    requires entries != []
    ensures |r.0| == |entries|
  {
    var h := Hit(entries, f);
    if h < |entries| then (entries[h := entries[h].(lastUsed := now)], Some(entries[h].params))
    else
      var v := Victim(entries);
      if created then (entries[v := Entry(f, true, now)], Some(f))
      else (entries[v := entries[v].(live := false)], None)
  }

  // ----- What it refines -----

  /** A request, the clock reading it saw, and whether a context could be made for it. */
  datatype Asked = Asked(params: FecParams, at: u64, created: bool)

  /** When each set of parameters was last requested. */
  function LastAsked(history: seq<Asked>): (m: map<FecParams, u64>)
  {
    if history == [] then map[]
    else
      var a := history[|history| - 1];
      LastAsked(history[..|history| - 1])[a.params := a.at]
  }

  /** A strictly increasing positive clock, and every creation succeeds. */
  predicate Ticking(history: seq<Asked>) {
    && (forall i :: 0 <= i < |history| ==> history[i].at > 0 && history[i].created)
    && (forall i, j :: 0 <= i < j < |history| ==> history[i].at < history[j].at)
  }

  /** The cache after these requests. */
  function After(history: seq<Asked>): (entries: seq<Entry>)
    ensures |entries| == FEC_CACHE_SIZE
  {
    if history == [] then Fresh()
    else
      var a := history[|history| - 1];
      Request(After(history[..|history| - 1]), a.params, a.at, a.created).0
  }

  predicate Held(entries: seq<Entry>, f: FecParams) { exists i :: 0 <= i < |entries| && Serves(entries[i], f) }

  /** Live entries carry the time of the last request for their parameters and are for distinct parameters; unused ones
      carry 0; whatever has been requested and is not held is older than all eight entries. */
  ghost predicate Inv(entries: seq<Entry>, last: map<FecParams, u64>) {
    EntriesOk(entries, last) && forall f :: f in last && !Held(entries, f) ==> OlderThanAll(entries, last[f])
  }

  predicate EntriesOk(entries: seq<Entry>, last: map<FecParams, u64>) {
    && |entries| == FEC_CACHE_SIZE
    && (forall i :: 0 <= i < |entries| && entries[i].live ==>
          entries[i].params in last && entries[i].lastUsed == last[entries[i].params])
    && (forall i :: 0 <= i < |entries| && !entries[i].live ==> entries[i].lastUsed == 0)
    && (forall i, j :: 0 <= i < j < |entries| && entries[i].live && entries[j].live ==>
          entries[i].params != entries[j].params)
  }

  predicate OlderThanAll(entries: seq<Entry>, time: u64) {
    forall i :: 0 <= i < |entries| ==> entries[i].live && entries[i].lastUsed > time
  }

  /** Times are positive, before now, and different for different parameters. */
  ghost predicate Clocked(last: map<FecParams, u64>, now: u64) {
    && (forall f :: f in last ==> 0 < last[f] < now)
    && (forall f, g :: f in last && g in last && f != g ==> last[f] != last[g])
  }

  lemma HitEntries(entries: seq<Entry>, last: map<FecParams, u64>, f: FecParams, now: u64, h: nat)
    requires EntriesOk(entries, last) && h < |entries| && Serves(entries[h], f)
    ensures EntriesOk(entries[h := entries[h].(lastUsed := now)], last[f := now])
  {}

  lemma StampKeepsHeld(entries: seq<Entry>, h: nat, now: u64, g: FecParams)
    requires h < |entries|
    ensures Held(entries[h := entries[h].(lastUsed := now)], g) <==> Held(entries, g)
  {
    var after := entries[h := entries[h].(lastUsed := now)];
    assert forall i :: 0 <= i < |entries| ==> (Serves(after[i], g) <==> Serves(entries[i], g));
  }

  lemma HitKeeps(entries: seq<Entry>, last: map<FecParams, u64>, f: FecParams, now: u64)
    requires Inv(entries, last) && Clocked(last, now) && Hit(entries, f) < |entries|
    ensures Inv(Request(entries, f, now, true).0, last[f := now])
  {
    var h := Hit(entries, f);
    var after := entries[h := entries[h].(lastUsed := now)];
    HitEntries(entries, last, f, now, h);
    forall g | g in last[f := now] && !Held(after, g)
      ensures OlderThanAll(after, last[f := now][g])
    {
      StampKeepsHeld(entries, h, now, g);
      assert g != f by { assert Serves(entries[h], f); }
    }
  }

  lemma MissEntries(entries: seq<Entry>, last: map<FecParams, u64>, f: FecParams, now: u64, v: nat)
    requires EntriesOk(entries, last) && v < |entries| && forall i :: 0 <= i < |entries| ==> !Serves(entries[i], f)
    ensures EntriesOk(entries[v := Entry(f, true, now)], last[f := now])
  {
    assert forall i :: 0 <= i < |entries| && entries[i].live ==> !Serves(entries[i], f);
  }

  lemma MissKeeps(entries: seq<Entry>, last: map<FecParams, u64>, f: FecParams, now: u64)
    requires Inv(entries, last) && Clocked(last, now) && now > 0 && Hit(entries, f) == |entries|
    ensures Inv(Request(entries, f, now, true).0, last[f := now])
  {
    var v := Victim(entries);
    var after := entries[v := Entry(f, true, now)];
    MissEntries(entries, last, f, now, v);
    assert Held(after, f) by { assert Serves(after[v], f); }
    forall g | g in last[f := now] && !Held(after, g)
      ensures OlderThanAll(after, last[f := now][g])
    {
      UnheldIsOlder(entries, last, f, now, g);
    }
  }

  lemma UnheldIsOlder(entries: seq<Entry>, last: map<FecParams, u64>, f: FecParams, now: u64, g: FecParams)
    requires Inv(entries, last) && Clocked(last, now) && g in last && g != f
    requires !Held(entries[Victim(entries) := Entry(f, true, now)], g)
    ensures OlderThanAll(entries[Victim(entries) := Entry(f, true, now)], last[g])
  {
    if Held(entries, g) {
      EvictedIsOldest(entries, last, f, now, g);
    }
  }

  /** What a miss pushes out is older than everything that stays. */
  lemma EvictedIsOldest(entries: seq<Entry>, last: map<FecParams, u64>, f: FecParams, now: u64, g: FecParams)
    requires Inv(entries, last) && Clocked(last, now) && g in last && g != f && Held(entries, g)
    requires !Held(entries[Victim(entries) := Entry(f, true, now)], g)
    ensures forall i :: 0 <= i < |entries| && i != Victim(entries) ==> entries[i].live && entries[i].lastUsed > last[g]
  {
    var v := Victim(entries);
    var after := entries[v := Entry(f, true, now)];
    forall i | 0 <= i < |entries| && i != v
      ensures !Serves(entries[i], g)
    {
      assert !Serves(after[i], g);
    }
    assert Serves(entries[v], g);
    forall i | 0 <= i < |entries| && i != v
      ensures entries[i].live && entries[i].lastUsed > last[g]
    {
      assert entries[v].lastUsed <= entries[i].lastUsed;
      assert entries[i].live ==> entries[i].params != entries[v].params;
    }
  }

  lemma {:induction false} LastAskedClocked(history: seq<Asked>, now: u64)
    requires Ticking(history) && forall i :: 0 <= i < |history| ==> history[i].at < now
    ensures Clocked(LastAsked(history), now)
  {
    if history != [] {
      var n := |history| - 1;
      LastAskedClocked(history[..n], history[n].at);
    }
  }

  lemma {:induction false} HistoryKeeps(history: seq<Asked>)
    requires Ticking(history)
    ensures Inv(After(history), LastAsked(history))
  {
    if history != [] {
      var n := |history| - 1;
      var a := history[n];
      HistoryKeeps(history[..n]);
      LastAskedClocked(history[..n], a.at);
      if Hit(After(history[..n]), a.params) < FEC_CACHE_SIZE {
        HitKeeps(After(history[..n]), LastAsked(history[..n]), a.params, a.at);
      } else {
        MissKeeps(After(history[..n]), LastAsked(history[..n]), a.params, a.at);
      }
    }
  }

  // ----- The eight most recent -----

  /** The parameters requested more recently than f. */
  ghost function Newer(last: map<FecParams, u64>, f: FecParams): (r: set<FecParams>)
    requires f in last
  {
    set g | g in last && last[g] > last[f]
  }

  ghost function LiveKeys(entries: seq<Entry>, n: nat): (r: set<FecParams>)
    requires n <= |entries|
  {
    set i | 0 <= i < n && entries[i].live :: entries[i].params
  }

  predicate AllDistinct(entries: seq<Entry>, n: nat)
    requires n <= |entries|
  {
    && (forall i :: 0 <= i < n ==> entries[i].live)
    && (forall i, j :: 0 <= i < j < n ==> entries[i].params != entries[j].params)
  }

  lemma {:induction false} LiveKeysSize(entries: seq<Entry>, n: nat)
    requires n <= |entries|
    ensures |LiveKeys(entries, n)| <= n
    ensures AllDistinct(entries, n) ==> |LiveKeys(entries, n)| == n
  {
    if n == 0 {
      assert LiveKeys(entries, 0) == {};
    } else {
      LiveKeysSize(entries, n - 1);
      LiveKeysNext(entries, n - 1);
    }
  }

  lemma LiveKeysNext(entries: seq<Entry>, n: nat)
    requires n < |entries|
    ensures LiveKeys(entries, n + 1) == LiveKeys(entries, n) + (if entries[n].live then {entries[n].params} else {})
  {}

  /** After every history of requests under a strictly increasing clock, the cache holds exactly the eight most recently
      requested distinct parameters: f is held if and only if fewer than eight others were requested since. */
  lemma HoldsEightMostRecent(history: seq<Asked>, f: FecParams)
    requires Ticking(history) && f in LastAsked(history)
    ensures Held(After(history), f) <==> |Newer(LastAsked(history), f)| < 8
  {
    HistoryKeeps(history);
    var entries, last := After(history), LastAsked(history);
    var live := LiveKeys(entries, |entries|);
    LiveKeysSize(entries, |entries|);
    if Held(entries, f) {
      forall g | g in Newer(last, f)
        ensures g in live - {f}
      {
        NewerIsHeld(entries, last, f, g);
        var i :| 0 <= i < |entries| && Serves(entries[i], g);
        assert entries[i].params in live;
      }
      var i :| 0 <= i < |entries| && Serves(entries[i], f);
      assert entries[i].params in live;
      SubsetSize(Newer(last, f), live - {f});
    } else {
      forall g | g in live
        ensures g in Newer(last, f)
      {}
      SubsetSize(live, Newer(last, f));
    }
  }

  lemma NewerIsHeld(entries: seq<Entry>, last: map<FecParams, u64>, f: FecParams, g: FecParams)
    requires Inv(entries, last) && f in last && Held(entries, f) && g in Newer(last, f)
    ensures Held(entries, g)
  {
    var i :| 0 <= i < |entries| && Serves(entries[i], f);
    assert entries[i].lastUsed == last[f];
  }

  /** For every clock and whichever creations fail: no two live entries are for the same parameters. */
  lemma {:induction false} NoDuplicates(history: seq<Asked>, i: nat, j: nat)
    requires i < j < FEC_CACHE_SIZE
    ensures var e := After(history); e[i].live && e[j].live ==> e[i].params != e[j].params
  {
    if history != [] {
      NoDuplicates(history[..|history| - 1], i, j);
    }
  }

  /** A request that finds no context makes room for one: the first of the least recently used entries goes out, also
      when no new context can be made, and no other entry changes. */
  lemma MissEvictsOldest(entries: seq<Entry>, f: FecParams, now: u64, created: bool)
    requires entries != [] && !Held(entries, f)
    ensures var after := Request(entries, f, now, created).0;
            exists v :: 0 <= v < |entries|
              && (forall j :: 0 <= j < |entries| ==> entries[v].lastUsed <= entries[j].lastUsed)
              && (forall j :: 0 <= j < v ==> entries[v].lastUsed < entries[j].lastUsed)
              && (forall j :: 0 <= j < |entries| && j != v ==> after[j] == entries[j])
              && after[v] == (if created then Entry(f, true, now)
                              else Entry(entries[v].params, false, entries[v].lastUsed))
  {
    var v := Victim(entries);
    assert forall i :: 0 <= i < |entries| ==> !Serves(entries[i], f);
    assert 0 <= v < |entries| && forall j :: 0 <= j < |entries| ==> entries[v].lastUsed <= entries[j].lastUsed;
  }

  /** A context is given exactly if one for these parameters is held or can be made, and it has precisely the requested
      parameters; afterwards it is held, and no other parameters have come in. */
  lemma GivenAsRequested(entries: seq<Entry>, f: FecParams, now: u64, created: bool, g: FecParams)
    requires entries != []
    ensures var (after, given) := Request(entries, f, now, created);
            && given == (if Held(entries, f) || created then Some(f) else None)
            && (given.Some? <==> Held(after, f))
            && (g != f && Held(after, g) ==> Held(entries, g))
  {
    var after := Request(entries, f, now, created).0;
    var h, v := Hit(entries, f), Victim(entries);
    if h < |entries| {
      assert Serves(after[h], f);
    } else if created {
      assert Serves(after[v], f);
    }
    if i :| 0 <= i < |after| && Serves(after[i], g) && g != f {
      assert Serves(entries[i], g);
    }
  }

  // ----- The imperative form -----

  class Cache {
    var entries: array<Entry>

    ghost predicate Valid()
      reads this
    {
      entries.Length == FEC_CACHE_SIZE
    }

    constructor ()
      ensures Valid() && fresh(entries) && entries[..] == Fresh()
    {
      entries := new Entry[FEC_CACHE_SIZE](_ => Entry(FecParams(ReedSolomon, 0, 0, 0), false, 0));
    }

    /** One pass looks for a hit and for the least recently used entry at once. */
    method Get(f: FecParams, now: u64, created: bool) returns (given: Option<FecParams>)
      requires Valid()
      modifies entries
      ensures (entries[..], given) == Request(old(entries[..]), f, now, created)
    {
      var lru, minTime: nat := 0, 0xFFFF_FFFF_FFFF_FFFF;
      for i := 0 to FEC_CACHE_SIZE
        invariant entries[..] == old(entries[..])
        invariant forall j :: 0 <= j < i ==> !Serves(entries[j], f)
        invariant lru < FEC_CACHE_SIZE
        invariant i == 0 || minTime == 0xFFFF_FFFF_FFFF_FFFF || minTime == entries[lru].lastUsed
        invariant i == 0 ==> minTime == 0xFFFF_FFFF_FFFF_FFFF
        invariant minTime == 0xFFFF_FFFF_FFFF_FFFF ==> lru == 0
        invariant minTime <= 0xFFFF_FFFF_FFFF_FFFF
        invariant forall j :: 0 <= j < i ==> minTime <= entries[j].lastUsed
        invariant forall j :: 0 <= j < lru ==> minTime < entries[j].lastUsed
        invariant lru <= i
      {
        if Serves(entries[i], f) {
          given := Some(entries[i].params);
          HitIs(entries[..], f, i);
          entries[i] := entries[i].(lastUsed := now);
          return;
        }
        if entries[i].lastUsed < minTime {
          minTime := entries[i].lastUsed;
          lru := i;
        }
      }
      HitIs(entries[..], f, FEC_CACHE_SIZE);
      VictimIs(entries[..], lru);
      if created {
        entries[lru] := Entry(f, true, now);
        given := Some(f);
      } else {
        entries[lru] := entries[lru].(live := false);
        given := None;
      }
    }
  }

  lemma HitIs(entries: seq<Entry>, f: FecParams, i: nat)
    requires i <= |entries| && (i < |entries| ==> Serves(entries[i], f))
    requires forall j :: 0 <= j < i ==> !Serves(entries[j], f)
    ensures Hit(entries, f) == i
  {}

  lemma VictimIs(entries: seq<Entry>, i: nat)
    requires i < |entries| && forall j :: 0 <= j < |entries| ==> entries[i].lastUsed <= entries[j].lastUsed
    requires forall j :: 0 <= j < i ==> entries[i].lastUsed < entries[j].lastUsed
    ensures Victim(entries) == i
  {}
}
