/**
 The per-address request limiter of rpc/server_v2.go: a fixed window that restarts once
 more than a minute has passed, and the sliding bound it gives nevertheless.
 */
module RateLimit {

  /** Nanoseconds. */
  type Time = int

  const MINUTE: Time := 60_000_000_000
  const LIMIT: nat := 600

  datatype Limit = Limit(count: nat, lastReset: Time)

  type Limits = map<string, Limit>

  /** One call: the three clock readings it may make, in order. */
  datatype Request = Request(ip: string, created: Time, checked: Time, done: Time)

  predicate Loopback(ip: string) {
    ip == "127.0.0.1" || ip == "::1"
  }

  /** The window the request is counted in. */
  function Window(m: Limits, r: Request): Limit {
    var l := if r.ip in m then m[r.ip] else Limit(0, r.created);
    if r.checked - l.lastReset > MINUTE then Limit(0, r.done) else l
  }

  predicate Accepts(m: Limits, r: Request) {
    Loopback(r.ip) || Window(m, r).count < LIMIT
  }

  function After(m: Limits, r: Request): Limits {
    if Loopback(r.ip) then m
    else
      var w := Window(m, r);
      m[r.ip := if w.count < LIMIT then Limit(w.count + 1, w.lastReset) else w]
  }

  class Server {
    var rateLimits: Limits

    constructor ()
      ensures rateLimits == map[]
    {
      rateLimits := map[];
    }

    method CheckRateLimit(r: Request) returns (ok: bool)
      modifies this
      ensures ok == Accepts(old(rateLimits), r)
      ensures rateLimits == After(old(rateLimits), r)
    {
      if r.ip == "127.0.0.1" || r.ip == "::1" {
        return true;
      }
      if r.ip !in rateLimits {
        rateLimits := rateLimits[r.ip := Limit(0, r.created)];
      }
      var limit := rateLimits[r.ip];
      if r.checked - limit.lastReset > MINUTE {
        limit := Limit(0, r.done);
        rateLimits := rateLimits[r.ip := limit];
      }
      if limit.count >= LIMIT {
        return false;
      }
      rateLimits := rateLimits[r.ip := limit.(count := limit.count + 1)];
      ok := true;
    }
  }

  // ---------- runs ----------

  /** The clock never goes back, within a call or between calls. */
  predicate Ordered(rs: seq<Request>) {
    && (forall i :: 0 <= i < |rs| ==> rs[i].created <= rs[i].checked <= rs[i].done)
    && (forall i, j :: 0 <= i < j < |rs| ==> rs[i].done <= rs[j].created)
  }

  function Run(rs: seq<Request>): Limits {
    if rs == [] then map[] else After(Run(rs[..|rs| - 1]), rs[|rs| - 1])
  }

  predicate Accepted(rs: seq<Request>, ip: string)
    requires rs != []
  {
    rs[|rs| - 1].ip == ip && Accepts(Run(rs[..|rs| - 1]), rs[|rs| - 1])
  }

  function Hit(rs: seq<Request>, ip: string, from: Time): nat
    requires rs != []
  {
    if Accepted(rs, ip) && from <= rs[|rs| - 1].done then 1 else 0
  }

  /** Accepted requests of ip that finished at or after `from`. */
  function Since(rs: seq<Request>, ip: string, from: Time): nat {
    if rs == [] then 0 else Since(rs[..|rs| - 1], ip, from) + Hit(rs, ip, from)
  }

  /** Accepted requests of ip that finished in [from, to]. */
  function Count(rs: seq<Request>, ip: string, from: Time, to: Time): nat {
    if rs == [] then 0
    else Count(rs[..|rs| - 1], ip, from, to) + if rs[|rs| - 1].done <= to then Hit(rs, ip, from) else 0
  }

  /** How many window starts, more than a minute apart, fit between `from` and `start`. */
  function Starts(start: Time, from: Time): nat {
    if from > start then 0
    else if from == start then 1
    else (start - from + MINUTE - 1) / MINUTE
  }

  lemma StartsAfterReset(start: Time, later: Time, from: Time)
    requires later - start > MINUTE && from <= later
    ensures Starts(later, from) >= Starts(start, from) + 1
  {
  }

  lemma OrderedPrefix(rs: seq<Request>)
    requires rs != [] && Ordered(rs)
    ensures Ordered(rs[..|rs| - 1])
  {
    var front := rs[..|rs| - 1];
    assert forall i :: 0 <= i < |front| ==> front[i] == rs[i];
  }

  lemma {:induction false} NothingInTheFuture(rs: seq<Request>, ip: string, from: Time)
    requires forall i :: 0 <= i < |rs| ==> rs[i].done < from
    ensures Since(rs, ip, from) == 0
  {
    if rs != [] { NothingInTheFuture(rs[..|rs| - 1], ip, from); }
  }

  /** What the limiter knows about one address, and what that says about its past. */
  predicate Tracks(rs: seq<Request>, ip: string, from: Time) {
    if ip !in Run(rs) then Since(rs, ip, from) == 0
    else
      var l := Run(rs)[ip];
      && l.count <= LIMIT
      && rs != [] && l.lastReset <= rs[|rs| - 1].done
      && Since(rs, ip, from) <= l.count + LIMIT * Starts(l.lastReset, from)
  }

  lemma {:induction false} RunTracks(rs: seq<Request>, ip: string, from: Time)
    requires Ordered(rs) && !Loopback(ip)
    ensures Tracks(rs, ip, from)
  {
    if rs != [] {
      var n := |rs| - 1;
      var front, r := rs[..n], rs[n];
      OrderedPrefix(rs);
      RunTracks(front, ip, from);
      if front != [] { assert front[n - 1].done <= r.created; }
      if r.ip == ip && ip in Run(front) && r.checked - Run(front)[ip].lastReset > MINUTE {
        ResetTracks(rs, ip, from);
      }
    }
  }

  /** A reset closes a window of at most 600 and opens the next one more than a minute later. */
  lemma ResetTracks(rs: seq<Request>, ip: string, from: Time)
    requires rs != [] && Ordered(rs) && !Loopback(ip)
    requires var front, r := rs[..|rs| - 1], rs[|rs| - 1];
      Tracks(front, ip, from) && r.ip == ip && ip in Run(front) && r.checked - Run(front)[ip].lastReset > MINUTE
    ensures Tracks(rs, ip, from)
  {
    var n := |rs| - 1;
    var front, r := rs[..n], rs[n];
    var previous := Run(front)[ip];
    if from > r.done {
      forall i | 0 <= i < |front| ensures front[i].done < from {
        assert front[i] == rs[i] && rs[i].done <= r.created;
      }
      NothingInTheFuture(front, ip, from);
    } else {
      StartsAfterReset(previous.lastReset, r.done, from);
      assert LIMIT * Starts(previous.lastReset, from) + LIMIT <= LIMIT * Starts(r.done, from);
    }
  }

  lemma {:induction false} CountIsSince(rs: seq<Request>, ip: string, from: Time, to: Time)
    requires forall i :: 0 <= i < |rs| ==> rs[i].done <= to
    ensures Count(rs, ip, from, to) == Since(rs, ip, from)
  {
    if rs != [] { CountIsSince(rs[..|rs| - 1], ip, from, to); }
  }

  /**
   Although the counter is a fixed window, no address other than loopback gets more than
   (k + 1) * 600 requests through in any k minutes, k >= 1.
   */
  lemma {:induction false} SlidingBound(rs: seq<Request>, ip: string, from: Time, to: Time, k: nat)
    requires Ordered(rs) && !Loopback(ip) && k >= 1 && to - from <= k * 60_000_000_000
    ensures Count(rs, ip, from, to) <= (k + 1) * 600
  {
    if rs == [] {
      assert (k + 1) * LIMIT >= 0;
    } else if rs[|rs| - 1].done > to {
      OrderedPrefix(rs);
      SlidingBound(rs[..|rs| - 1], ip, from, to, k);
    } else {
      var n := |rs| - 1;
      forall i | 0 <= i < |rs| ensures rs[i].done <= to {
        if i < n { assert rs[i].done <= rs[n].created; }
      }
      CountIsSince(rs, ip, from, to);
      RunTracks(rs, ip, from);
      if ip in Run(rs) {
        StartsBound(Run(rs)[ip].lastReset, from, to, k);
      }
    }
  }

  lemma StartsBound(start: Time, from: Time, to: Time, k: nat)
    requires start <= to && k >= 1 && to - from <= k * MINUTE
    ensures Starts(start, from) <= k
    ensures LIMIT + LIMIT * Starts(start, from) <= (k + 1) * LIMIT
  {
  }

  /** The counter never exceeds what was really accepted in the current window. */
  lemma {:induction false} CounterIsReal(rs: seq<Request>, ip: string)
    requires Ordered(rs) && !Loopback(ip)
    ensures ip in Run(rs) ==>
      && rs != [] && Run(rs)[ip].lastReset <= rs[|rs| - 1].done
      && Since(rs, ip, Run(rs)[ip].lastReset) >= Run(rs)[ip].count
  {
    if rs != [] {
      var n := |rs| - 1;
      OrderedPrefix(rs);
      CounterIsReal(rs[..n], ip);
      if n > 0 { assert rs[n - 1].done <= rs[n].created; }
    }
  }

  /** A request is refused only when 600 were accepted within the minute before its check. */
  lemma RefusalJustified(rs: seq<Request>, r: Request)
    requires Ordered(rs + [r]) && !Accepts(Run(rs), r)
    ensures Count(rs, r.ip, r.checked - 60_000_000_000, r.checked) >= 600
  {
    OrderedPrefix(rs + [r]);
    assert (rs + [r])[..|rs|] == rs;
    CounterIsReal(rs, r.ip);
    forall i | 0 <= i < |rs| ensures rs[i].done <= r.checked {
      assert (rs + [r])[i] == rs[i] && (rs + [r])[|rs|] == r;
    }
    assert (rs + [r])[|rs|] == r;
    CountIsSince(rs, r.ip, r.checked - MINUTE, r.checked);
    SinceAntitone(rs, r.ip, r.checked - MINUTE, Run(rs)[r.ip].lastReset);
  }

  lemma {:induction false} SinceAntitone(rs: seq<Request>, ip: string, from: Time, later: Time)
    requires from <= later
    ensures Since(rs, ip, later) <= Since(rs, ip, from)
  {
    if rs != [] { SinceAntitone(rs[..|rs| - 1], ip, from, later); }
  }

  // ---------- loopback ----------

  /** The requests of other callers. */
  function Outside(rs: seq<Request>): seq<Request> {
    if rs == [] then []
    else
      var front, last := Outside(rs[..|rs| - 1]), rs[|rs| - 1];
      if Loopback(last.ip) then front else front + [last]
  }

  /**
   However many loopback requests come in between, each is let through, and the limiter,
   and so every later answer to anyone else, is as if they had never come.
   */
  lemma {:induction false} LoopbackInvisible(rs: seq<Request>, r: Request)
    ensures Run(rs) == Run(Outside(rs)) && (forall ip :: ip in Run(rs) ==> !Loopback(ip))
    ensures r.ip == "127.0.0.1" || r.ip == "::1" ==> Accepts(Run(rs), r)
    ensures r.ip != "127.0.0.1" && r.ip != "::1" ==> (Accepts(Run(rs), r) <==> Accepts(Run(Outside(rs)), r))
  {
    if rs != [] {
      var front, last := rs[..|rs| - 1], rs[|rs| - 1];
      LoopbackInvisible(front, r);
      if !Loopback(last.ip) {
        assert Outside(rs)[..|Outside(front)|] == Outside(front);
      }
    }
  }

  // ---------- the first window ----------

  /** Requests of one address within a minute of its first, counted up to the limit. */
  lemma {:induction false} FirstWindow(rs: seq<Request>, ip: string, start: Time)
    requires ip != "127.0.0.1" && ip != "::1" && rs != [] && rs[0].created == start
    requires forall i :: 0 <= i < |rs| ==> rs[i].ip == ip && rs[i].checked <= start + 60_000_000_000
    ensures Run(rs) == map[ip := Limit(if |rs| < 600 then |rs| else 600, start)]
    decreases |rs|
  {
    var n := |rs| - 1;
    if n == 0 {
      assert Run(rs[..0]) == map[];
    } else {
      FirstWindow(rs[..n], ip, start);
    }
  }

  /**
   The limit is neither lower nor higher: within the first minute of an address exactly 600
   requests pass, and once more than a minute is over the next one does.
   */
  lemma WindowExact(rs: seq<Request>, r: Request, start: Time)
    requires r.ip != "127.0.0.1" && r.ip != "::1" && rs != [] && rs[0].created == start
    requires forall i :: 0 <= i < |rs| ==> rs[i].ip == r.ip && rs[i].checked <= start + 60_000_000_000
    ensures Accepts(Run(rs), r) <==> |rs| < 600 || r.checked > start + 60_000_000_000
  {
    FirstWindow(rs, r.ip, start);
  }
}
