/** The send rate limiter of the packet queue (CheckRateLimit). */
module RateLimiter {
  /** Steady-clock ticks (nanoseconds) in a second. */
  const SECOND: nat := 1_000_000_000

  datatype RateLimitConfig = RateLimitConfig(maxPackets: nat, maxBytes: nat, burst: nat)

  datatype Limiter = Limiter(windowStart: int, packets: nat, bytes: nat, tokens: nat)

  function Start(cfg: RateLimitConfig, now: int): Limiter { Limiter(now, 0, 0, cfg.burst) }

  /** One admission request: a new window opens when a whole second has passed; a packet beyond
      the per-second count costs a burst token even if it is then refused for its size. */
  function Check(cfg: RateLimitConfig, l: Limiter, now: int, size: nat): (Limiter, bool) {
    var w := if now - l.windowStart >= SECOND then Start(cfg, now) else l;
    if w.packets >= cfg.maxPackets && w.tokens == 0 then (w, false)
    else
      var paid := if w.packets >= cfg.maxPackets then w.(tokens := w.tokens - 1) else w;
      if w.bytes + size > cfg.maxBytes then (paid, false)
      else (paid.(packets := paid.packets + 1, bytes := paid.bytes + size), true)
  }

  // ----- Admission over whole runs -----

  datatype Request = Request(time: int, size: nat)

  predicate InOrder(t0: int, rs: seq<Request>) {
    && (forall i | 0 <= i < |rs| :: t0 <= rs[i].time)
    && forall i, j | 0 <= i < j < |rs| :: rs[i].time <= rs[j].time
  }

  function After(cfg: RateLimitConfig, t0: int, rs: seq<Request>): Limiter {
    if rs == [] then Start(cfg, t0)
    else var r := rs[|rs| - 1]; Check(cfg, After(cfg, t0, rs[..|rs| - 1]), r.time, r.size).0
  }

  predicate LastAdmitted(cfg: RateLimitConfig, t0: int, rs: seq<Request>)
    requires rs != []
  {
    var r := rs[|rs| - 1]; Check(cfg, After(cfg, t0, rs[..|rs| - 1]), r.time, r.size).1
  }

  /** What is counted: packets or bytes. */
  datatype Unit = Packets | PayloadBytes

  function Weight(u: Unit, r: Request): nat { if u.Packets? then 1 else r.size }
  function Used(u: Unit, l: Limiter): nat { if u.Packets? then l.packets else l.bytes }
  function Cap(u: Unit, cfg: RateLimitConfig): nat { if u.Packets? then cfg.maxPackets + cfg.burst else cfg.maxBytes }

  /** How much of `u` was admitted at times within `[a, b]`. */
  function Admitted(cfg: RateLimitConfig, t0: int, rs: seq<Request>, u: Unit, a: int, b: int): nat {
    if rs == [] then 0
    else
      var r := rs[|rs| - 1];
      Admitted(cfg, t0, rs[..|rs| - 1], u, a, b)
      + if a <= r.time <= b && LastAdmitted(cfg, t0, rs) then Weight(u, r) else 0
  }

  predicate WithinCap(cfg: RateLimitConfig, l: Limiter) {
    && l.tokens <= cfg.burst
    && (l.packets <= cfg.maxPackets || l.packets + l.tokens <= cfg.maxPackets + cfg.burst)
    && l.bytes <= cfg.maxBytes
  }

  /** Within one window the counters never exceed the configured limits. */
  lemma CheckWithinCap(cfg: RateLimitConfig, l: Limiter, now: int, size: nat)
    requires WithinCap(cfg, l)
    ensures WithinCap(cfg, Check(cfg, l, now, size).0)
  {
  }

  /** `k` closed windows since `a`, each within the cap, and they are a second apart. */
  predicate Accounted(cfg: RateLimitConfig, l: Limiter, u: Unit, a: int, total: nat, k: nat) {
    && WithinCap(cfg, l)
    && total <= k * Cap(u, cfg) + Used(u, l)
    && (k > 0 ==> l.windowStart >= a + (k - 1) * SECOND)
  }

  /** What one request does to the window: a new one starts from nothing. */
  lemma UsedStep(cfg: RateLimitConfig, l: Limiter, r: Request, u: Unit)
    requires WithinCap(cfg, l)
    ensures var (l', ok) := Check(cfg, l, r.time, r.size);
            var spent := if ok then Weight(u, r) else 0;
            && Used(u, l) <= Cap(u, cfg)
            && if r.time - l.windowStart >= SECOND then l'.windowStart == r.time && Used(u, l') == spent
               else l'.windowStart == l.windowStart && Used(u, l') == Used(u, l) + spent
  {
  }

  lemma OneMore(k: nat, cap: nat)
    ensures (k + 1) * cap == k * cap + cap
  {
  }

  lemma AccountStep(cfg: RateLimitConfig, l: Limiter, r: Request, u: Unit, a: int, total: nat, k: nat) returns (k': nat)
    requires Accounted(cfg, l, u, a, total, k) && r.time >= a
    ensures var (l', ok) := Check(cfg, l, r.time, r.size);
            && Accounted(cfg, l', u, a, total + (if ok then Weight(u, r) else 0), k')
            && (l'.windowStart == r.time || (l'.windowStart == l.windowStart && k' == k))
  {
    CheckWithinCap(cfg, l, r.time, r.size);
    UsedStep(cfg, l, r, u);
    OneMore(k, Cap(u, cfg));
    k' := if r.time - l.windowStart >= SECOND then k + 1 else k;
  }

  lemma {:induction false} AccountRun(cfg: RateLimitConfig, t0: int, rs: seq<Request>, u: Unit, a: int, b: int)
    returns (k: nat)
    requires InOrder(t0, rs) && forall i | 0 <= i < |rs| :: rs[i].time <= b
    ensures Accounted(cfg, After(cfg, t0, rs), u, a, Admitted(cfg, t0, rs, u, a, b), k)
    ensures k > 0 ==> After(cfg, t0, rs).windowStart <= b
  {
    if rs == [] {
      k := 0;
    } else {
      var front, r := rs[..|rs| - 1], rs[|rs| - 1];
      var before := AccountRun(cfg, t0, front, u, a, b);
      if r.time >= a {
        k := AccountWithin(cfg, t0, rs, u, a, b, before);
      } else {
        AccountBefore(cfg, t0, rs, u, a, b);
        k := 0;
      }
    }
  }

  lemma AccountWithin(cfg: RateLimitConfig, t0: int, rs: seq<Request>, u: Unit, a: int, b: int, before: nat)
    returns (k: nat)
    requires rs != [] && a <= rs[|rs| - 1].time <= b
    requires var front := rs[..|rs| - 1];
             && Accounted(cfg, After(cfg, t0, front), u, a, Admitted(cfg, t0, front, u, a, b), before)
             && (before > 0 ==> After(cfg, t0, front).windowStart <= b)
    ensures Accounted(cfg, After(cfg, t0, rs), u, a, Admitted(cfg, t0, rs, u, a, b), k)
    ensures k > 0 ==> After(cfg, t0, rs).windowStart <= b
  {
    var front, r := rs[..|rs| - 1], rs[|rs| - 1];
    RunStep(cfg, t0, rs, u, a, b);
    k := AccountStep(cfg, After(cfg, t0, front), r, u, a, Admitted(cfg, t0, front, u, a, b), before);
  }

  /** Nothing is counted before the interval begins. */
  lemma AccountBefore(cfg: RateLimitConfig, t0: int, rs: seq<Request>, u: Unit, a: int, b: int)
    requires rs != [] && InOrder(t0, rs) && rs[|rs| - 1].time <= b && rs[|rs| - 1].time < a
    requires WithinCap(cfg, After(cfg, t0, rs[..|rs| - 1]))
    ensures Accounted(cfg, After(cfg, t0, rs), u, a, Admitted(cfg, t0, rs, u, a, b), 0)
  {
    RunStep(cfg, t0, rs, u, a, b);
    NothingBefore(cfg, t0, rs[..|rs| - 1], u, a, b);
    CheckWithinCap(cfg, After(cfg, t0, rs[..|rs| - 1]), rs[|rs| - 1].time, rs[|rs| - 1].size);
  }

  /** What the last request adds to a run. */
  lemma RunStep(cfg: RateLimitConfig, t0: int, rs: seq<Request>, u: Unit, a: int, b: int)
    requires rs != [] && rs[|rs| - 1].time <= b
    ensures var front, r := rs[..|rs| - 1], rs[|rs| - 1];
            var (l, ok) := Check(cfg, After(cfg, t0, front), r.time, r.size);
            && After(cfg, t0, rs) == l
            && Admitted(cfg, t0, rs, u, a, b)
               == Admitted(cfg, t0, front, u, a, b) + if ok && a <= r.time then Weight(u, r) else 0
  {
  }

  lemma {:induction false} NothingBefore(cfg: RateLimitConfig, t0: int, rs: seq<Request>, u: Unit, a: int, b: int)
    requires forall i | 0 <= i < |rs| :: rs[i].time < a
    ensures Admitted(cfg, t0, rs, u, a, b) == 0
  {
    if rs != [] { NothingBefore(cfg, t0, rs[..|rs| - 1], u, a, b); }
  }

  /** Over every run with a fixed configuration, any interval of length L admits at most
      (floor(L) + 2) times the per-window cap, in packets and in bytes. */
  lemma {:induction false} RateBound(cfg: RateLimitConfig, t0: int, rs: seq<Request>, u: Unit, a: int, b: int)
    requires InOrder(t0, rs) && a <= b
    ensures Admitted(cfg, t0, rs, u, a, b) <= ((b - a) / SECOND + 2) * Cap(u, cfg)
  {
    if rs != [] && rs[|rs| - 1].time > b {
      RateBound(cfg, t0, rs[..|rs| - 1], u, a, b);
    } else {
      var k := AccountRun(cfg, t0, rs, u, a, b);
      var windows := (b - a) / SECOND + 2;
      assert k + 1 <= windows;
      MulMonotone(k + 1, windows, Cap(u, cfg));
      assert (k + 1) * Cap(u, cfg) == k * Cap(u, cfg) + Cap(u, cfg);
    }
  }

  lemma MulMonotone(x: nat, y: nat, c: nat)
    requires x <= y
    ensures x * c <= y * c
  {
    assert y * c == x * c + (y - x) * c;
  }

  // ----- When a request must be admitted -----

  /** Whether the limiter has room, said from outside: a window a second old counts for nothing; then a packet needs a
      place among the regular ones or a token, and its bytes must fit. */
  predicate Room(cfg: RateLimitConfig, l: Limiter, now: int, size: nat) {
    var stale := now - l.windowStart >= 1_000_000_000;
    && ((if stale then 0 else l.packets) < cfg.maxPackets || (if stale then cfg.burst else l.tokens) > 0)
    && (if stale then 0 else l.bytes) + size <= cfg.maxBytes
  }

  /** Room decides; a token goes when no regular place is left, and nothing is counted but what is admitted. */
  lemma RoomDecides(cfg: RateLimitConfig, l: Limiter, now: int, size: nat)
    ensures var stale := now - l.windowStart >= 1_000_000_000;
            var packets, bytes := if stale then 0 else l.packets, if stale then 0 else l.bytes;
            var tokens := if stale then cfg.burst else l.tokens;
            var (l', ok) := Check(cfg, l, now, size);
            && (ok <==> Room(cfg, l, now, size))
            && l'.tokens == tokens - (if packets >= cfg.maxPackets && tokens > 0 then 1 else 0)
            && l'.windowStart == (if stale then now else l.windowStart)
            && l'.packets == packets + (if ok then 1 else 0) && l'.bytes == bytes + (if ok then size else 0)
  {
  }

  /** How much of `u` was asked for after `from`, admitted or not. */
  function Asked(rs: seq<Request>, u: Unit, from: int): nat {
    if rs == [] then 0
    else Asked(rs[..|rs| - 1], u, from) + if rs[|rs| - 1].time > from then Weight(u, rs[|rs| - 1]) else 0
  }

  lemma {:induction false} WindowOpened(cfg: RateLimitConfig, t0: int, rs: seq<Request>, now: int)
    requires t0 <= now && forall i | 0 <= i < |rs| :: rs[i].time <= now
    ensures After(cfg, t0, rs).windowStart <= now
  {
    if rs != [] { WindowOpened(cfg, t0, rs[..|rs| - 1], now); }
  }

  /** The window holds no more than was asked for since before it opened, and a token is gone only for a request beyond
      the regular ones. */
  predicate NoMoreThanAsked(cfg: RateLimitConfig, l: Limiter, packets: nat, bytes: nat) {
    && l.packets <= packets && l.bytes <= bytes
    && (l.tokens >= cfg.burst || l.tokens + packets >= cfg.burst + cfg.maxPackets)
  }

  lemma AskedStep(cfg: RateLimitConfig, l: Limiter, r: Request, packets: nat, bytes: nat)
    requires r.time - l.windowStart < SECOND ==> NoMoreThanAsked(cfg, l, packets, bytes)
    ensures NoMoreThanAsked(cfg, Check(cfg, l, r.time, r.size).0, packets + 1, bytes + r.size)
  {
  }

  lemma {:induction false} WindowAsked(cfg: RateLimitConfig, t0: int, rs: seq<Request>, from: int)
    requires InOrder(t0, rs) && from < After(cfg, t0, rs).windowStart
    ensures NoMoreThanAsked(cfg, After(cfg, t0, rs), Asked(rs, Packets, from), Asked(rs, PayloadBytes, from))
  {
    if rs != [] {
      var front, r := rs[..|rs| - 1], rs[|rs| - 1];
      var l := After(cfg, t0, front);
      WindowOpened(cfg, t0, front, r.time);
      if r.time - l.windowStart < SECOND { WindowAsked(cfg, t0, front, from); }
      AskedStep(cfg, l, r, Asked(front, Packets, from), Asked(front, PayloadBytes, from));
    }
  }

  /** Over every run, a request is admitted whenever those of the second that ends with it, admitted or not, are no more
      than the regular packets and the burst, and their bytes no more than the limit. */
  lemma MustAdmit(cfg: RateLimitConfig, t0: int, rs: seq<Request>)
    requires InOrder(t0, rs) && rs != []
    requires Asked(rs, Packets, rs[|rs| - 1].time - 1_000_000_000) <= cfg.maxPackets + cfg.burst
    requires Asked(rs, PayloadBytes, rs[|rs| - 1].time - 1_000_000_000) <= cfg.maxBytes
    ensures LastAdmitted(cfg, t0, rs)
  {
    var front, r := rs[..|rs| - 1], rs[|rs| - 1];
    if r.time - After(cfg, t0, front).windowStart < 1_000_000_000 {
      WindowAsked(cfg, t0, front, r.time - 1_000_000_000);
    }
  }
}
