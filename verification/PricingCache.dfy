/** The on-disk price cache of one provider and region, over every run of fetches. */
module PricingCache {
  import opened Common

  /** A fetched price list; what a row is does not matter here. */
  type Rows = seq<nat>

  datatype Entry = Entry(fetchedAt: int, rows: Rows)

  datatype Failure = CredentialsMissing | Transient

  /** The cache file: absent, unparsable, or an entry. */
  datatype File = Absent | Garbage | Stored(entry: Entry)

  /** What happens during one fetch: the clock at its freshness test and at its write,
      whether the file can be read, what the provider answers, whether the write and
      rename succeed. */
  datatype Env = Env(now: int, later: int, readable: bool, live: Result<Rows, Failure>, writeOk: bool)

  const DEFAULT_TTL := 86_400

  /** readCache: an entry without rows does not count. */
  function Usable(dir: string, file: File, readable: bool): Option<Entry> {
    if dir != "" && readable && file.Stored? && file.entry.rows != [] then Some(file.entry) else None
  }

  predicate IsFresh(e: Entry, now: int, ttl: int) {
    now - e.fetchedAt < ttl
  }

  /** What a fetch returns, whether it asks the provider, and the entry it stores. */
  datatype Outcome = Outcome(result: Result<Rows, Failure>, calledLive: bool, stored: Option<Entry>)

  function Replaced(file: File, stored: Option<Entry>): File {
    if stored.Some? then Stored(stored.value) else file
  }

  class CachedFetcher {
    const dir: string
    const ttl: int
    var file: File

    constructor (dir: string, ttl: int, file: File)
      ensures this.dir == dir && this.ttl == (if ttl <= 0 then DEFAULT_TTL else ttl) && this.file == file
    {
      this.dir, this.file := dir, file;
      this.ttl := if ttl <= 0 then DEFAULT_TTL else ttl;
    }

    /** The entry read from the cache file. */
    method ReadCache(readable: bool) returns (e: Option<Entry>)
      ensures e == Usable(dir, file, readable)
    {
      if dir == "" || !readable || !file.Stored? || |file.entry.rows| == 0 {
        return None;
      }
      return Some(file.entry);
    }

    /** The file is replaced as a whole by rename, or not at all. */
    method WriteCache(rows: Rows, now: int, ok: bool)
      modifies this`file
      ensures file == if dir != "" && rows != [] && ok then Stored(Entry(now, rows)) else old(file)
    {
      if dir == "" || |rows| == 0 || !ok {
        return;
      }
      file := Stored(Entry(now, rows));
    }

    method Fetch(env: Env) returns (r: Result<Rows, Failure>, calledLive: bool)
      modifies this`file
      ensures var o := FetchOutcome(dir, ttl, old(file), env);
              r == o.result && calledLive == o.calledLive && file == Replaced(old(file), o.stored)
    {
      var cached := ReadCache(env.readable);
      if cached.Some? && env.now - cached.value.fetchedAt < ttl {
        return Ok(cached.value.rows), false;
      }
      calledLive := true;
      match env.live {
        case Err(e) =>
          if cached.Some? && !e.CredentialsMissing? {
            r := Ok(cached.value.rows);
          } else {
            r := Err(e);
          }
        case Ok(rows) =>
          WriteCache(rows, env.later, env.writeOk);
          r := Ok(rows);
      }
    }
  }

  function FetchOutcome(dir: string, ttl: int, file: File, env: Env): Outcome {
    var cached := Usable(dir, file, env.readable);
    if cached.Some? && IsFresh(cached.value, env.now, ttl) then Outcome(Ok(cached.value.rows), false, None)
    else if env.live.Ok? then
      Outcome(env.live, true,
              if dir != "" && env.live.value != [] && env.writeOk then Some(Entry(env.later, env.live.value)) else None)
    else if cached.Some? && env.live.error.Transient? then Outcome(Ok(cached.value.rows), true, None)
    else Outcome(env.live, true, None)
  }

  // ---------------------------------------------------------------- runs of any number of processes

  /** A fetch of a run; the fetches of all processes are ordered by their end. `lag` is how
      many of them ended between this fetch's reading the file and its own end. */
  datatype Fetch = Fetch(env: Env, lag: nat)

  datatype Setting = Setting(dir: string, ttl: int, file: File)

  /** The file when `n` fetches have ended. */
  function FileAt(c: Setting, run: seq<Fetch>, n: nat): File
    requires n <= |run|
    decreases n, 1
  {
    if n == 0 then c.file else Replaced(FileAt(c, run, n - 1), OutcomeAt(c, run, n - 1).stored)
  }

  function OutcomeAt(c: Setting, run: seq<Fetch>, n: nat): Outcome
    requires n < |run|
    decreases n, 2
  {
    FetchOutcome(c.dir, c.ttl, FileAt(c, run, ReadPoint(run, n)), run[n].env)
  }

  /** How many fetches had ended when fetch `n` read the file. */
  function ReadPoint(run: seq<Fetch>, n: nat): (m: nat)
    requires n < |run|
    ensures m <= n
  {
    if run[n].lag <= n then n - run[n].lag else 0
  }

  /** Fetch `k` stored its live answer `e`, and no fetch before `n` stored another since. */
  ghost predicate LastStored(c: Setting, run: seq<Fetch>, k: nat, n: nat, e: Entry)
    requires n <= |run|
  {
    && k < n && OutcomeAt(c, run, k).stored == Some(e)
    && forall j :: k < j < n ==> OutcomeAt(c, run, j).stored.None?
  }

  /** The file holds what it held at first or the entry stored last. */
  lemma {:induction false} FileIsLastStored(c: Setting, run: seq<Fetch>, n: nat)
    requires n <= |run|
    ensures var f := FileAt(c, run, n);
            f == c.file || (f.Stored? && exists k: nat :: LastStored(c, run, k, n, f.entry))
  {
    if n > 0 {
      FileIsLastStored(c, run, n - 1);
      var before, f := FileAt(c, run, n - 1), FileAt(c, run, n);
      if OutcomeAt(c, run, n - 1).stored.Some? {
        assert LastStored(c, run, n - 1, n, f.entry);
      } else if f != c.file {
        var k: nat :| LastStored(c, run, k, n - 1, f.entry);
        assert LastStored(c, run, k, n, f.entry);
      }
    }
  }

  /** From no cache, every list a fetch returns is the live answer it just obtained or a
      non-empty live answer that an earlier fetch obtained from the provider. */
  lemma ReturnsLiveAnswers(c: Setting, run: seq<Fetch>, n: nat)
    requires n < |run| && c.file.Absent?
    ensures var o := OutcomeAt(c, run, n);
            o.result.Ok? ==>
              || (o.calledLive && run[n].env.live == o.result)
              || (&& o.result.value != []
                  && exists k: nat :: k < n && OutcomeAt(c, run, k).calledLive && run[k].env.live == o.result)
  {
    var m := ReadPoint(run, n);
    FileIsLastStored(c, run, m);
    var f := FileAt(c, run, m);
    if f.Stored? {
      var k: nat :| LastStored(c, run, k, m, f.entry);
      assert OutcomeAt(c, run, k).calledLive && run[k].env.live == Ok(f.entry.rows);
    }
  }

  /** A stored entry stays until a non-empty live answer replaces it: empty answers,
      failures and failed writes leave it. */
  lemma {:induction false} OnlyAnswersReplace(c: Setting, run: seq<Fetch>, m: nat, n: nat)
    requires m <= n <= |run|
    requires forall k :: m <= k < n ==> run[k].env.live.Err? || run[k].env.live.value == [] || !run[k].env.writeOk
    ensures FileAt(c, run, n) == FileAt(c, run, m)
    decreases n
  {
    if m < n {
      OnlyAnswersReplace(c, run, m, n - 1);
    }
  }

  /** An entry stored last is what the file holds. */
  lemma {:induction false} LastStoredIsFile(c: Setting, run: seq<Fetch>, k: nat, n: nat, e: Entry)
    requires n <= |run| && LastStored(c, run, k, n, e)
    ensures FileAt(c, run, n) == Stored(e) && c.dir != "" && e.rows != []
    ensures run[k].env.live == Ok(e.rows) && e.fetchedAt == run[k].env.later
    decreases n
  {
    if k + 1 < n {
      assert LastStored(c, run, k, n - 1, e);
      LastStoredIsFile(c, run, k, n - 1, e);
      assert OutcomeAt(c, run, n - 1).stored.None?;
    }
  }

  /** The entry stored last before fetch `n` reads is younger than the TTL. */
  ghost predicate FindsFresh(c: Setting, run: seq<Fetch>, n: nat)
    requires n < |run|
  {
    exists k: nat, e: Entry :: LastStored(c, run, k, ReadPoint(run, n), e) && run[n].env.now - e.fetchedAt < c.ttl
  }

  /** Some fetch stored an entry before fetch `n` reads. */
  ghost predicate FindsAny(c: Setting, run: seq<Fetch>, n: nat)
    requires n < |run|
  {
    exists k: nat, e: Entry :: LastStored(c, run, k, ReadPoint(run, n), e)
  }

  /** What a fetch reads, from no cache: an entry exactly when its read succeeds and some
      fetch has stored one, and then the one stored last. */
  lemma ReadsLastStored(c: Setting, run: seq<Fetch>, n: nat)
    requires n < |run| && c.file.Absent?
    ensures var cached := Usable(c.dir, FileAt(c, run, ReadPoint(run, n)), run[n].env.readable);
            && (cached.Some? <==> run[n].env.readable && FindsAny(c, run, n))
            && (cached.Some? ==> (IsFresh(cached.value, run[n].env.now, c.ttl) <==> FindsFresh(c, run, n)))
  {
    var m := ReadPoint(run, n);
    FileIsLastStored(c, run, m);
    forall k: nat, e: Entry | LastStored(c, run, k, m, e)
      ensures FileAt(c, run, m) == Stored(e) && c.dir != "" && e.rows != []
    {
      LastStoredIsFile(c, run, k, m, e);
    }
  }

  /** Over every run from no cache, with any number of overlapping processes: a fetch asks
      the provider if and only if it cannot read the file or the entry stored last before
      its read is absent or at least a TTL old. */
  lemma AsksExactly(c: Setting, run: seq<Fetch>, n: nat)
    requires n < |run| && c.file.Absent?
    ensures OutcomeAt(c, run, n).calledLive <==> !run[n].env.readable || !FindsFresh(c, run, n)
    ensures c.dir == "" ==> OutcomeAt(c, run, n).calledLive
  {
    ReadsLastStored(c, run, n);
  }

  /** Over every such run, a fetch fails if and only if it asks in vain and either the
      credentials are missing or it has no stored answer to fall back on; the error is then
      the provider's.  So a credentials failure with an expired entry always surfaces. */
  lemma FailsExactly(c: Setting, run: seq<Fetch>, n: nat)
    requires n < |run| && c.file.Absent?
    ensures var o := OutcomeAt(c, run, n);
            var live := run[n].env.live;
            && (o.result.Err? <==>
                && (!run[n].env.readable || !FindsFresh(c, run, n)) && live.Err?
                && (live.error.CredentialsMissing? || !run[n].env.readable || !FindsAny(c, run, n)))
            && (o.result.Err? ==> o.result == live && o.stored.None?)
  {
    ReadsLastStored(c, run, n);
  }

  /** Over every run, whatever the file held: a fetch stores exactly when it asked, was given
      a non-empty list, caching is on and the write succeeds; then the file is that answer,
      dated at its end, and otherwise it is as it was. */
  lemma StoresExactly(c: Setting, run: seq<Fetch>, n: nat)
    requires n < |run|
    ensures var o, env := OutcomeAt(c, run, n), run[n].env;
            var stores := o.calledLive && env.live.Ok? && env.live.value != [] && c.dir != "" && env.writeOk;
            && (o.stored.Some? <==> stores)
            && FileAt(c, run, n + 1) == if stores then Stored(Entry(env.later, env.live.value)) else FileAt(c, run, n)
  {
  }

  /** Over every run from no cache, what a fetch returns: the live answer if it asked and got
      one, the entry stored last before its read if that is fresh or the provider failed
      transiently, and the provider's error otherwise. */
  lemma ReturnsExactly(c: Setting, run: seq<Fetch>, n: nat)
    requires n < |run| && c.file.Absent?
    ensures var o, env := OutcomeAt(c, run, n), run[n].env;
            && (o.calledLive && env.live.Ok? ==> o.result == env.live)
            && (env.readable && (!o.calledLive || env.live == Err(Transient)) ==>
                  forall k: nat, e: Entry :: LastStored(c, run, k, ReadPoint(run, n), e) ==> o.result == Ok(e.rows))
            && (o.calledLive && env.live == Err(CredentialsMissing) ==> o.result == env.live)
            && (o.calledLive && env.live.Err? && (!env.readable || !FindsAny(c, run, n)) ==> o.result == env.live)
  {
    ReadsLastStored(c, run, n);
    var m := ReadPoint(run, n);
    forall k: nat, e: Entry | LastStored(c, run, k, m, e) ensures FileAt(c, run, m) == Stored(e) {
      LastStoredIsFile(c, run, k, m, e);
    }
  }

  /** A fetch that reads the answer of fetch `k` within the TTL, or overlaps `k` without
      storing another. */
  ghost predicate LeavesAnswer(c: Setting, run: seq<Fetch>, k: nat, i: nat)
    requires k < |run| && i < |run|
  {
    if ReadPoint(run, i) > k then run[i].env.readable && run[i].env.now < run[k].env.later + c.ttl
    else OutcomeAt(c, run, i).stored.None?
  }

  lemma {:induction false} AnswerStays(c: Setting, run: seq<Fetch>, k: nat, n: nat)
    requires k < n <= |run| && OutcomeAt(c, run, k).stored.Some?
    requires forall i: nat :: k < i < n ==> LeavesAnswer(c, run, k, i)
    ensures LastStored(c, run, k, n, OutcomeAt(c, run, k).stored.value)
    decreases n
  {
    forall j: nat | k < j < n ensures OutcomeAt(c, run, j).stored.None? {
      assert LeavesAnswer(c, run, k, j);
      var m := ReadPoint(run, j);
      if m > k {
        AnswerStays(c, run, k, m);
        LastStoredIsFile(c, run, k, m, OutcomeAt(c, run, k).stored.value);
      }
    }
  }

  /** A stored answer serves every fetch that reads it within the TTL, without asking the
      provider, as long as no fetch that overlaps the store stores another. */
  lemma ServesForTtl(c: Setting, run: seq<Fetch>, k: nat, n: nat)
    requires k < n < |run| && OutcomeAt(c, run, k).stored.Some? && k < ReadPoint(run, n)
    requires forall i: nat :: k < i <= n ==> LeavesAnswer(c, run, k, i)
    ensures OutcomeAt(c, run, n) == Outcome(run[k].env.live, false, None)
    ensures FileAt(c, run, n) == Stored(Entry(run[k].env.later, run[k].env.live.value))
  {
    var e := OutcomeAt(c, run, k).stored.value;
    AnswerStays(c, run, k, n);
    LastStoredIsFile(c, run, k, n, e);
    AnswerStays(c, run, k, ReadPoint(run, n));
    LastStoredIsFile(c, run, k, ReadPoint(run, n), e);
    assert LeavesAnswer(c, run, k, n);
  }
}
