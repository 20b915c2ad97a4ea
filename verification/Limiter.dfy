/** The sliding-window limiter of nkt-edge (cmd/nkt-edge/limits.go:12-44). It keeps
    a few times per address; its answers are those of a log of all allowed calls.

    Callers read the clock before they take the lock, so the times may arrive out of
    order: now may lie behind the latest time by up to skew. With skew 0 they do not
    decrease. */
module Limiter {

  const MINUTE := 60_000_000_000
  const CROWD := 10000

  // ---- what a list of times says ----

  /** How many of the times are after x. */
  function After(ts: seq<int>, x: int): nat {
    if ts == [] then 0 else After(ts[..|ts| - 1], x) + if ts[|ts| - 1] > x then 1 else 0
  }

  /** The times less than a minute before now. */
  function Recent(ts: seq<int>, now: int): seq<int> {
    if ts == [] then []
    else
      var rest, t := Recent(ts[..|ts| - 1], now), ts[|ts| - 1];
      if now - t < MINUTE then rest + [t] else rest
  }

  lemma {:induction false} AfterNext(ts: seq<int>, t: int, x: int)
    ensures After(ts + [t], x) == After(ts, x) + if t > x then 1 else 0
  {
    assert (ts + [t])[..|ts|] == ts;
  }

  lemma {:induction false} AfterNone(ts: seq<int>, x: int)
    requires forall i :: 0 <= i < |ts| ==> ts[i] <= x
    ensures After(ts, x) == 0
  {
    if ts != [] {
      AfterNone(ts[..|ts| - 1], x);
    }
  }

  lemma {:induction false} AfterAll(ts: seq<int>, x: int)
    requires forall i :: 0 <= i < |ts| ==> ts[i] > x
    ensures After(ts, x) == |ts|
  {
    if ts != [] {
      AfterAll(ts[..|ts| - 1], x);
    }
  }

  lemma {:induction false} AfterFalls(ts: seq<int>, x: int, y: int)
    requires x <= y
    ensures After(ts, y) <= After(ts, x) <= |ts|
  {
    if ts != [] {
      AfterFalls(ts[..|ts| - 1], x, y);
    }
  }

  lemma {:induction false} AfterSuffix(ts: seq<int>, n: nat, x: int)
    requires n <= |ts|
    ensures After(ts[n..], x) <= After(ts, x)
  {
    if n < |ts| {
      assert ts[n..][..|ts| - n - 1] == ts[..|ts| - 1][n..];
      AfterSuffix(ts[..|ts| - 1], n, x);
    }
  }

  /** The filter drops nothing later than a minute ago. */
  lemma {:induction false} RecentAfter(ts: seq<int>, now: int, x: int)
    ensures After(Recent(ts, now), x) <= After(ts, x)
    ensures x >= now - MINUTE ==> After(Recent(ts, now), x) == After(ts, x)
    ensures |Recent(ts, now)| == After(ts, now - MINUTE)
  {
    if ts != [] {
      var rest, t := ts[..|ts| - 1], ts[|ts| - 1];
      RecentAfter(rest, now, x);
      AfterNext(Recent(rest, now), t, x);
      if t > now - MINUTE {
        assert Recent(ts, now) == Recent(rest, now) + [t];
      } else {
        assert Recent(ts, now) == Recent(rest, now);
      }
    }
  }

  // ---- the kept times and the log ----

  ghost predicate Upto(ts: seq<int>, clock: int) { forall i :: 0 <= i < |ts| ==> ts[i] <= clock }

  ghost predicate NearlySorted(ts: seq<int>, skew: nat) {
    forall i, j :: 0 <= i < j < |ts| ==> ts[i] <= ts[j] + skew
  }

  /** The kept times are as good as the log for anything a later call can ask. */
  ghost predicate Tracks(kept: seq<int>, log: seq<int>, clock: int, skew: nat) {
    && (forall x :: After(kept, x) <= After(log, x))
    && (forall x :: x >= clock - MINUTE + skew ==> After(kept, x) == After(log, x))
    && Upto(kept, clock) && NearlySorted(kept, skew)
    && Upto(log, clock) && NearlySorted(log, skew)
  }

  function Max(a: int, b: int): int { if a < b then b else a }

  lemma {:induction false} RecentKeepsOrder(ts: seq<int>, now: int, clock: int, skew: nat)
    requires Upto(ts, clock) && NearlySorted(ts, skew)
    ensures Upto(Recent(ts, now), clock) && NearlySorted(Recent(ts, now), skew)
    ensures forall i :: 0 <= i < |Recent(ts, now)| ==> exists j :: 0 <= j < |ts| && ts[j] == Recent(ts, now)[i]
  {
    if ts != [] {
      var rest, t := ts[..|ts| - 1], ts[|ts| - 1];
      RecentKeepsOrder(rest, now, clock, skew);
      var r := Recent(rest, now);
      forall i | 0 <= i < |r| ensures r[i] <= t + skew && exists j :: 0 <= j < |ts| && ts[j] == r[i] {
        var j :| 0 <= j < |rest| && rest[j] == r[i];
        assert ts[j] == r[i];
      }
      if now - t < MINUTE {
        assert Recent(ts, now) == r + [t] && ts[|ts| - 1] == t;
      }
    }
  }

  lemma TracksLater(kept: seq<int>, log: seq<int>, clock: int, skew: nat, later: int)
    requires Tracks(kept, log, clock, skew) && clock <= later
    ensures Tracks(kept, log, later, skew)
  {}

  lemma TracksRecent(kept: seq<int>, log: seq<int>, clock: int, skew: nat, now: int)
    requires Tracks(kept, log, clock, skew)
    ensures Tracks(Recent(kept, now), log, Max(clock, now), skew)
  {
    RecentKeepsOrder(kept, now, clock, skew);
    forall x
      ensures After(Recent(kept, now), x) <= After(log, x)
        && (x >= Max(clock, now) - MINUTE + skew ==> After(Recent(kept, now), x) == After(log, x))
    {
      RecentAfter(kept, now, x);
      assert After(kept, x) <= After(log, x);
    }
  }

  lemma OrderNext(ts: seq<int>, clock: int, skew: nat, now: int)
    requires Upto(ts, clock) && NearlySorted(ts, skew) && clock - skew <= now <= clock
    ensures Upto(ts + [now], clock) && NearlySorted(ts + [now], skew)
  {}

  lemma TracksNext(kept: seq<int>, log: seq<int>, clock: int, skew: nat, now: int)
    requires Tracks(kept, log, clock, skew) && clock - skew <= now <= clock
    ensures Tracks(kept + [now], log + [now], clock, skew)
  {
    OrderNext(kept, clock, skew, now);
    OrderNext(log, clock, skew, now);
    var k, l := kept + [now], log + [now];
    forall x ensures After(k, x) - After(kept, x) == After(l, x) - After(log, x) {
      AfterNext(kept, now, x);
      AfterNext(log, now, x);
    }
    forall x ensures After(k, x) <= After(l, x) && (x >= clock - MINUTE + skew ==> After(k, x) == After(l, x)) {
      assert After(kept, x) <= After(log, x);
    }
  }

  /** Eviction: an address whose last time is more than a minute old may be forgotten. */
  lemma TracksEvicted(kept: seq<int>, log: seq<int>, clock: int, skew: nat, now: int)
    requires Tracks(kept, log, clock, skew) && now <= clock
    requires kept == [] || now - kept[|kept| - 1] > MINUTE
    ensures Tracks([], log, clock, skew)
  {
    forall x | x >= clock - MINUTE + skew ensures After(log, x) == 0 {
      assert After(kept, x) == After(log, x);
      AfterNone(kept, x);
    }
  }

  /** Any rate + 1 allowed calls in a row span a minute, less the skew. */
  ghost predicate Spaced(log: seq<int>, rate: nat, skew: nat) {
    forall i :: 0 <= i && i + rate < |log| ==> log[i + rate] - log[i] >= MINUTE - 3 * skew
  }

  lemma SpacedNext(log: seq<int>, rate: nat, skew: nat, now: int)
    requires Spaced(log, rate, skew) && NearlySorted(log, skew)
    requires After(log, now - MINUTE + 2 * skew) < rate
    ensures Spaced(log + [now], rate, skew)
  {
    var n := |log| - rate;
    if n >= 0 {
      var last := log[n..];
      var x := now - MINUTE + 2 * skew;
      AfterSuffix(log, n, x);
      if forall i :: 0 <= i < |last| ==> last[i] > x {
        AfterAll(last, x);
      }
      var i :| 0 <= i < |last| && last[i] <= x;
      assert log[n + i] <= x && log[n] <= log[n + i] + skew;
    }
  }

  lemma {:induction false} AfterSplit(ts: seq<int>, n: nat, x: int)
    requires n <= |ts|
    ensures After(ts, x) == After(ts[..n], x) + After(ts[n..], x)
  {
    if n == |ts| {
      assert ts[..n] == ts;
    } else {
      assert ts[n..][..|ts| - n - 1] == ts[..|ts| - 1][n..] && ts[..|ts| - 1][..n] == ts[..n];
      AfterSplit(ts[..|ts| - 1], n, x);
    }
  }

  /** The last call of a minute: the calls rate places back are older than the minute. */
  lemma LastMinute(log: seq<int>, rate: nat, start: int)
    requires NearlySorted(log, 0) && Spaced(log, rate, 0) && log != [] && log[|log| - 1] < start + MINUTE
    ensures After(log, start - 1) <= rate
  {
    var n := |log| - 1;
    if n >= rate {
      assert log[n - rate + rate] - log[n - rate] >= MINUTE;
      var cut := n - rate + 1;
      AfterSplit(log, cut, start - 1);
      AfterNone(log[..cut], start - 1);
      AfterFalls(log[cut..], start - 1, start - 1);
    } else {
      AfterFalls(log, start - 1, start - 1);
    }
  }

  /** When times never decrease, no minute holds more than rate allowed calls. */
  lemma {:induction false} NoMinuteHoldsMore(log: seq<int>, rate: nat, start: int)
    requires NearlySorted(log, 0) && Spaced(log, rate, 0)
    ensures After(log, start - 1) - After(log, start + MINUTE - 1) <= rate
  {
    if log != [] {
      var n := |log| - 1;
      if log[n] < start + MINUTE {
        LastMinute(log, rate, start);
      } else {
        NoMinuteHoldsMore(log[..n], rate, start);
      }
    }
  }

  // ---- the limiter ----

  /** A Go slice: the first len places of an array. */
  datatype Slice = Slice(buf: array<int>, len: nat)

  class Limiter {
    const rate: nat
    var hits: map<string, Slice>
    ghost const skew: nat
    ghost var clock: int
    ghost var log: map<string, seq<int>>

    ghost function Bufs(): set<object>
      reads this`hits
    {
      set k | k in hits :: hits[k].buf
    }

    ghost predicate Sliced()
      reads this`hits
    {
      && (forall k <- hits :: hits[k].len <= hits[k].buf.Length)
      && (forall k, l :: k in hits && l in hits && k != l ==> hits[k].buf != hits[l].buf)
    }

    ghost function Kept(ip: string): seq<int>
      requires Sliced()
      reads this`hits, Bufs()
    {
      if ip in hits then hits[ip].buf[..hits[ip].len] else []
    }

    ghost function Log(ip: string): seq<int>
      reads this`log
    {
      if ip in log then log[ip] else []
    }

    ghost predicate Fine(ip: string)
      requires Sliced()
      reads this, Bufs()
    {
      Tracks(Kept(ip), Log(ip), clock, skew) && Spaced(Log(ip), rate, skew)
    }

    ghost predicate Valid()
      reads this, Bufs()
    {
      Sliced() && forall ip :: Fine(ip)
    }

    constructor (rate: nat, ghost skew: nat, ghost start: int)
      ensures Valid() && this.rate == rate && this.skew == skew && clock == start && log == map[]
    {
      this.rate, hits, this.skew, clock, log := rate, map[], skew, start, map[];
    }

    /** The filter over l.hits[ip][:0]: it writes behind the place it reads. */
    static method Filter(buf: array<int>, len: nat, now: int) returns (k: nat)
      requires len <= buf.Length
      modifies buf
      ensures k <= len && buf[..k] == Recent(old(buf[..len]), now)
    {
      ghost var was := buf[..len];
      k := 0;
      var i := 0;
      while i < len
        invariant 0 <= k <= i <= len
        invariant buf[..k] == Recent(was[..i], now)
        invariant forall j :: i <= j < len ==> buf[j] == was[j]
      {
        assert was[..i + 1][..i] == was[..i];
        if now - buf[i] < MINUTE {
          buf[k] := buf[i];
          k := k + 1;
        }
        i := i + 1;
      }
      assert was[..len] == was;
    }

    /** Go's append: in place while the array has room, else into a larger array. */
    static method Append(buf: array<int>, len: nat, now: int) returns (s: Slice)
      requires len <= buf.Length
      modifies buf
      ensures s.buf == buf || fresh(s.buf)
      ensures s.len == len + 1 <= s.buf.Length && s.buf[..s.len] == old(buf[..len]) + [now]
    {
      if len < buf.Length {
        buf[len] := now;
        return Slice(buf, len + 1);
      }
      var larger := new int[2 * len + 1];
      var i := 0;
      while i < len
        invariant 0 <= i <= len && larger[..i] == buf[..i]
        modifies larger
      {
        larger[i] := buf[i];
        i := i + 1;
      }
      larger[len] := now;
      s := Slice(larger, len + 1);
    }

    /** l.hits[ip] = s: only that address changes. */
    method Store(ip: string, s: Slice)
      requires Sliced() && s.len <= s.buf.Length
      requires forall k :: k in hits && k != ip ==> hits[k].buf != s.buf
      modifies this`hits
      ensures Sliced() && hits == old(hits)[ip := s] && Kept(ip) == s.buf[..s.len]
      ensures forall x :: x != ip ==> Kept(x) == old(Kept(x))
    {
      hits := hits[ip := s];
    }

    /** The times of ip, filtered in place. */
    method Filtered(ip: string, now: int) returns (buf: array<int>, k: nat)
      requires Sliced()
      modifies Bufs()
      ensures Sliced() && k <= buf.Length && buf[..k] == Recent(old(Kept(ip)), now)
      ensures if ip in hits then buf == hits[ip].buf && k <= hits[ip].len else fresh(buf)
      ensures forall x :: x != ip ==> Kept(x) == old(Kept(x))
    {
      if ip in hits {
        buf := hits[ip].buf;
        k := Filter(buf, hits[ip].len, now);
      } else {
        buf := new int[0];
        k := 0;
      }
    }

    predicate Old(s: Slice, now: int)
      requires s.len <= s.buf.Length
      reads s.buf
    {
      s.len == 0 || now - s.buf[s.len - 1] > MINUTE
    }

    /** The eviction: the loop over the map, in any order. */
    method Evict(now: int) returns (ghost gone: set<string>)
      requires Sliced()
      modifies this`hits
      ensures Sliced() && hits == old(hits) - gone
      ensures forall k <- gone :: k in old(hits) && Old(old(hits)[k], now)
    {
      var rest := hits.Keys;
      gone := {};
      while rest != {}
        invariant hits == old(hits) - gone && rest <= old(hits).Keys
        invariant forall k <- gone :: k in old(hits) && Old(old(hits)[k], now)
        decreases |rest|
      {
        var k :| k in rest;
        if k in hits && Old(hits[k], now) {
          hits, gone := hits - {k}, gone + {k};
        }
        rest := rest - {k};
      }
    }

    method EvictOld(now: int)
      requires Valid() && now <= clock
      modifies this`hits
      ensures Valid() && Bufs() <= old(Bufs())
    {
      ghost var gone := Evict(now);
      forall ip ensures Fine(ip) {
        assert old(Fine(ip));
        if ip in gone {
          assert Old(old(hits)[ip], now);
          TracksEvicted(old(Kept(ip)), Log(ip), clock, skew, now);
        }
      }
    }

    /** l.hits[ip] = append(recent, now). */
    method Push(ip: string, buf: array<int>, k: nat, now: int)
      requires Sliced() && k <= buf.Length && forall x :: x in hits && x != ip ==> hits[x].buf != buf
      modifies this`hits, buf
      ensures Sliced() && fresh(Bufs() - old(Bufs()) - {buf})
      ensures Kept(ip) == old(buf[..k]) + [now] && forall x :: x != ip ==> Kept(x) == old(Kept(x))
    {
      var s := Append(buf, k, now);
      Store(ip, s);
    }

    /** The other addresses stay fine. */
    method PushFor(ip: string, buf: array<int>, k: nat, now: int)
      requires Sliced() && k <= buf.Length && forall x :: x in hits && x != ip ==> hits[x].buf != buf
      requires forall x :: x != ip ==> Fine(x)
      modifies this`hits, buf
      ensures Sliced() && fresh(Bufs() - old(Bufs()) - {buf}) && Kept(ip) == old(buf[..k]) + [now]
      ensures forall x :: x != ip ==> Fine(x)
    {
      Push(ip, buf, k, now);
      forall x | x != ip ensures Fine(x) {
        assert Kept(x) == old(Kept(x)) && Log(x) == old(Log(x)) && old(Fine(x));
      }
    }

    /** The log of all allowed calls. */
    ghost method Record(ip: string, now: int)
      requires Sliced() && forall x :: x != ip ==> Fine(x)
      requires Tracks(Kept(ip), Log(ip) + [now], clock, skew) && Spaced(Log(ip) + [now], rate, skew)
      modifies this`log
      ensures Valid() && log == old(log)[ip := old(Log(ip)) + [now]]
    {
      ghost var all := Log(ip) + [now];
      log := log[ip := all];
      assert Kept(ip) == old(Kept(ip)) && Log(ip) == all;
      forall x | x != ip ensures Fine(x) {
        assert old(Fine(x)) && Kept(x) == old(Kept(x)) && Log(x) == old(Log(x));
      }
      assert Fine(ip);
    }

    /** The end of an allowed call. */
    method Accept(ip: string, buf: array<int>, k: nat, now: int)
      requires Sliced() && k <= buf.Length && forall x :: x in hits && x != ip ==> hits[x].buf != buf
      requires Tracks(buf[..k], Log(ip), clock, skew) && Spaced(Log(ip), rate, skew) && clock - skew <= now <= clock
      requires After(Log(ip), now - MINUTE + 2 * skew) < rate
      requires forall x :: x != ip ==> Fine(x)
      modifies this`hits, this`log, buf
      ensures Valid() && log == old(log)[ip := old(Log(ip)) + [now]] && fresh(Bufs() - old(Bufs()) - {buf})
    {
      ghost var kept, all := buf[..k] + [now], Log(ip) + [now];
      NextKept(buf[..k], Log(ip), clock, rate, skew, now);
      PushFor(ip, buf, k, now);
      assert Kept(ip) == kept && Log(ip) + [now] == all;
      forall x | x != ip ensures Fine(x) {
        assert old(Fine(x));
      }
      Record(ip, now);
    }

    /** The start of a call: the clock and the filter. */
    method Begin(ip: string, now: int) returns (buf: array<int>, k: nat)
      requires Valid() && now >= clock - skew
      modifies this`clock, Bufs()
      ensures Sliced() && k <= buf.Length && clock == Max(old(clock), now)
      ensures Tracks(buf[..k], Log(ip), clock, skew) && Spaced(Log(ip), rate, skew)
      ensures forall x :: x != ip ==> Fine(x)
      ensures if ip in hits then buf == hits[ip].buf else fresh(buf)
      ensures After(Log(ip), now - MINUTE) < rate ==> k < rate
      ensures k < rate ==> After(Log(ip), now - MINUTE + 2 * skew) < rate
    {
      ghost var kept, all, was := Kept(ip), Log(ip), clock;
      assert Fine(ip);
      Started(kept, all, was, skew, now, rate);
      buf, k := FilterOne(ip, now);
      assert buf[..k] == Recent(kept, now) && Log(ip) == all;
      Tick(ip, now);
      assert clock == Max(was, now) && |buf[..k]| == k;
    }

    method FilterOne(ip: string, now: int) returns (buf: array<int>, k: nat)
      requires Sliced() && forall x :: x != ip ==> Fine(x)
      modifies Bufs()
      ensures Sliced() && k <= buf.Length && buf[..k] == Recent(old(Kept(ip)), now)
      ensures if ip in hits then buf == hits[ip].buf else fresh(buf)
      ensures forall x :: x != ip ==> Fine(x)
    {
      buf, k := Filtered(ip, now);
      forall x | x != ip ensures Fine(x) {
        assert old(Fine(x)) && Kept(x) == old(Kept(x));
      }
    }

    ghost method Tick(ip: string, now: int)
      requires Sliced() && forall x :: x != ip ==> Fine(x)
      modifies this`clock
      ensures clock == Max(old(clock), now) && forall x :: x != ip ==> Fine(x)
    {
      clock := Max(clock, now);
      forall x | x != ip ensures Fine(x) {
        assert old(Fine(x)) && Kept(x) == old(Kept(x));
        TracksLater(Kept(x), Log(x), old(clock), skew, clock);
      }
    }

    /** limiter.allow. Its answer is the log's: it allows whenever fewer than rate allowed
        calls lie in the last minute, and only when fewer than rate lie in the last
        minute less twice the skew. */
    method Allow(ip: string, now: int) returns (ok: bool)
      requires Valid() && now >= clock - skew
      modifies this, Bufs()
      ensures Valid() && fresh(Bufs() - old(Bufs()))
      ensures clock == Max(old(clock), now)
      ensures log == if ok then old(log)[ip := old(Log(ip)) + [now]] else old(log)
      ensures After(old(Log(ip)), now - MINUTE) < rate ==> ok
      ensures ok ==> After(old(Log(ip)), now - MINUTE + 2 * skew) < rate
    {
      var buf, k := Begin(ip, now);
      if k >= rate {
        Refuse(ip, buf, k);
        return false;
      }
      Accept(ip, buf, k, now);
      if |hits| > CROWD {
        EvictOld(now);
      }
      ok := true;
    }

    /** The end of a refused call. */
    method Refuse(ip: string, buf: array<int>, k: nat)
      requires Sliced() && k <= buf.Length && forall x :: x in hits && x != ip ==> hits[x].buf != buf
      requires Tracks(buf[..k], Log(ip), clock, skew) && Spaced(Log(ip), rate, skew)
      requires forall x :: x != ip ==> Fine(x)
      modifies this`hits
      ensures Valid() && Bufs() <= old(Bufs()) + {buf}
    {
      Store(ip, Slice(buf, k));
      forall x ensures Fine(x) {
        assert x != ip ==> old(Fine(x)) && Kept(x) == old(Kept(x));
      }
    }
  }

  lemma NextKept(kept: seq<int>, log: seq<int>, clock: int, rate: nat, skew: nat, now: int)
    requires Tracks(kept, log, clock, skew) && clock - skew <= now <= clock
    requires Spaced(log, rate, skew) && After(log, now - MINUTE + 2 * skew) < rate
    ensures Tracks(kept + [now], log + [now], clock, skew) && Spaced(log + [now], rate, skew)
  {
    TracksNext(kept, log, clock, skew, now);
    SpacedNext(log, rate, skew, now);
  }

  /** What the filtered times say about the log. */
  /** All that a call needs to know of the filtered times. */
  lemma Started(kept: seq<int>, log: seq<int>, clock: int, skew: nat, now: int, rate: nat)
    requires Tracks(kept, log, clock, skew) && now >= clock - skew
    ensures Tracks(Recent(kept, now), log, Max(clock, now), skew)
    ensures After(log, now - MINUTE) < rate ==> |Recent(kept, now)| < rate
    ensures |Recent(kept, now)| < rate ==> After(log, now - MINUTE + 2 * skew) < rate
  {
    Answer(kept, log, clock, skew, now, rate);
    TracksRecent(kept, log, clock, skew, now);
  }

  lemma Answer(kept: seq<int>, log: seq<int>, clock: int, skew: nat, now: int, rate: nat)
    requires Tracks(kept, log, clock, skew) && now >= clock - skew
    ensures After(log, now - MINUTE) < rate ==> |Recent(kept, now)| < rate
    ensures |Recent(kept, now)| < rate ==> After(log, now - MINUTE + 2 * skew) < rate
  {
    RecentAfter(kept, now, now - MINUTE);
    var x := now - MINUTE + 2 * skew;
    AfterFalls(kept, now - MINUTE, x);
    assert After(kept, x) == After(log, x);
    assert After(kept, now - MINUTE) <= After(log, now - MINUTE);
  }
}
