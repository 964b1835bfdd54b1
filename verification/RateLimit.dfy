/** The token buckets of the rate limiter. Times are in seconds. */
module RateLimit {

  datatype Config = Config(enabled: bool, byIP: bool, limit: real, burst: int)

  datatype Bucket = Bucket(tokens: real, lastCheck: real)

  datatype Request = Request(ip: string, time: real)

  function Key(cfg: Config, r: Request): string {
    if cfg.byIP then r.ip else "global"
  }

  // ---------- The machine ----------

  /** The tokens that come in between two times. */
  function Earned(cfg: Config, since: real, now: real): real {
    (now - since) * cfg.limit
  }

  lemma EarnedAdds(cfg: Config, x: real, y: real, z: real)
    ensures Earned(cfg, x, y) + Earned(cfg, y, z) == Earned(cfg, x, z)
    ensures Earned(cfg, x, x) == 0.0
  {
  }

  function Refilled(cfg: Config, b: Bucket, now: real): real {
    var tokens := b.tokens + Earned(cfg, b.lastCheck, now);
    if tokens > cfg.burst as real then cfg.burst as real else tokens
  }

  /** The tokens that a client has when its request arrives. */
  function Level(cfg: Config, clients: map<string, Bucket>, r: Request): real {
    var key := Key(cfg, r);
    Refilled(cfg, if key in clients then clients[key] else Bucket(cfg.burst as real, r.time), r.time)
  }

  function Spent(cfg: Config, clients: map<string, Bucket>, r: Request): map<string, Bucket> {
    var level := Level(cfg, clients, r);
    clients[Key(cfg, r) := Bucket(if level < 1.0 then level else level - 1.0, r.time)]
  }

  /** The buckets after a run of requests. */
  function Buckets(cfg: Config, rs: seq<Request>): map<string, Bucket> {
    if rs == [] then map[] else Spent(cfg, Buckets(cfg, rs[..|rs| - 1]), rs[|rs| - 1])
  }

  /** Whether the last request of a run is let through. */
  predicate Admitted(cfg: Config, rs: seq<Request>)
    requires rs != []
  {
    Level(cfg, Buckets(cfg, rs[..|rs| - 1]), rs[|rs| - 1]) >= 1.0
  }

  class Limiter {
    const cfg: Config
    var clients: map<string, Bucket>

    constructor (cfg: Config)
      ensures this.cfg == cfg && clients == map[]
    {
      this.cfg := cfg;
      clients := map[];
    }

    /** Decides one request; a disabled limiter lets everything through. */
    method Handle(r: Request) returns (admitted: bool)
      modifies this
      ensures !cfg.enabled ==> admitted && clients == old(clients)
      ensures cfg.enabled ==> clients == Spent(cfg, old(clients), r) && admitted == (Level(cfg, old(clients), r) >= 1.0)
    {
      if !cfg.enabled {
        return true;
      }
      var key := Key(cfg, r);
      if key !in clients {
        clients := clients[key := Bucket(cfg.burst as real, r.time)];
      }
      var cl := clients[key];
      cl := cl.(tokens := cl.tokens + Earned(cfg, cl.lastCheck, r.time));
      if cl.tokens > cfg.burst as real {
        cl := cl.(tokens := cfg.burst as real);
      }
      cl := cl.(lastCheck := r.time);
      if cl.tokens < 1.0 {
        clients := clients[key := cl];
        assert clients == old(clients)[key := cl];
        return false;
      }
      clients := clients[key := cl.(tokens := cl.tokens - 1.0)];
      assert clients == old(clients)[key := cl.(tokens := cl.tokens - 1.0)];
      return true;
    }

    /** Decides a run of requests, one after another. A request passes exactly when every window of its
        client that ends with it stays within the burst and the rate. */
    method HandleAll(rs: seq<Request>) returns (verdicts: seq<bool>)
      requires clients == map[]
      modifies this
      ensures |verdicts| == |rs|
      ensures !cfg.enabled ==> forall k :: 0 <= k < |rs| ==> verdicts[k]
      ensures cfg.enabled ==> forall n :: 0 <= n < |rs| ==> (verdicts[n] <==> FitsEveryWindow(cfg, rs, verdicts, n))
    {
      assert Buckets(cfg, rs[..0]) == map[];
      hide Buckets, FitsEveryWindow, Admitted, Spent, Level;
      verdicts := [];
      for k := 0 to |rs|
        invariant cfg.enabled ==> clients == Buckets(cfg, rs[..k])
        invariant |verdicts| == k
        invariant forall j :: 0 <= j < k ==> verdicts[j] == (cfg.enabled ==> Admitted(cfg, rs[..j + 1]))
      {
        RunStep(cfg, rs, k);
        var admitted := Handle(rs[k]);
        verdicts := verdicts + [admitted];
      }
      forall n | 0 <= n < |rs| && cfg.enabled ensures verdicts[n] <==> FitsEveryWindow(cfg, rs, verdicts, n) {
        VerdictIff(cfg, rs, verdicts, n);
      }
    }
  }

  lemma RunStep(cfg: Config, rs: seq<Request>, k: nat)
    requires k < |rs|
    ensures Buckets(cfg, rs[..k + 1]) == Spent(cfg, Buckets(cfg, rs[..k]), rs[k])
    ensures Admitted(cfg, rs[..k + 1]) == (Level(cfg, Buckets(cfg, rs[..k]), rs[k]) >= 1.0)
  {
    assert rs[..k + 1][..k] == rs[..k];
    hide Spent, Level;
  }

  // ---------- The rule that the verdicts follow ----------

  /** Without limits per address, all requests are of one client. */
  predicate SameClient(cfg: Config, x: Request, y: Request) {
    cfg.byIP ==> x.ip == y.ip
  }

  /** How many of the requests from `a` to before `n` passed and are of the client of `r`. */
  function Passed(cfg: Config, rs: seq<Request>, verdicts: seq<bool>, r: Request, a: nat, n: nat): nat
    requires n <= |rs| && n <= |verdicts|
  {
    if n <= a then 0
    else Passed(cfg, rs, verdicts, r, a, n - 1) + if verdicts[n - 1] && SameClient(cfg, rs[n - 1], r) then 1 else 0
  }

  /** With request `n`, the window that opens with request `a` holds no more than the burst and the rate. */
  predicate FitsWindow(cfg: Config, rs: seq<Request>, verdicts: seq<bool>, a: nat, n: nat)
    requires a <= n < |rs| && n < |verdicts|
  {
    Passed(cfg, rs, verdicts, rs[n], a, n) as real + 1.0 <= cfg.burst as real + (rs[n].time - rs[a].time) * cfg.limit
  }

  predicate FitsEveryWindow(cfg: Config, rs: seq<Request>, verdicts: seq<bool>, n: nat)
    requires n < |rs| && n < |verdicts|
  {
    forall a :: 0 <= a <= n && SameClient(cfg, rs[a], rs[n]) ==> FitsWindow(cfg, rs, verdicts, a, n)
  }

  lemma {:induction false} PassedAreServed(cfg: Config, rs: seq<Request>, verdicts: seq<bool>, r: Request, a: nat, n: nat)
    requires n <= |rs| && n <= |verdicts|
    requires forall k :: 0 <= k < n ==> verdicts[k] == Admitted(cfg, rs[..k + 1])
    ensures Passed(cfg, rs, verdicts, r, a, n) == Served(cfg, rs[..n], Key(cfg, r), a)
    decreases n
  {
    hide Admitted;
    if n > 0 {
      assert rs[..n][..n - 1] == rs[..n - 1];
      PassedAreServed(cfg, rs, verdicts, r, a, n - 1);
    }
  }

  lemma WindowIff(cfg: Config, rs: seq<Request>, verdicts: seq<bool>, a: nat, n: nat)
    requires |verdicts| == |rs| && a <= n < |rs|
    requires forall k :: 0 <= k < |rs| ==> verdicts[k] == Admitted(cfg, rs[..k + 1])
    ensures FitsWindow(cfg, rs, verdicts, a, n) <==>
              Served(cfg, rs[..n], Key(cfg, rs[n]), a) as real + 1.0 <= cfg.burst as real + Earned(cfg, rs[a].time, rs[n].time)
  {
    hide Admitted, Served, Passed, Key;
    PassedAreServed(cfg, rs, verdicts, rs[n], a, n);
  }

  lemma VerdictIff(cfg: Config, rs: seq<Request>, verdicts: seq<bool>, n: nat)
    requires |verdicts| == |rs| && n < |rs|
    requires forall k :: 0 <= k < |rs| ==> verdicts[k] == Admitted(cfg, rs[..k + 1])
    ensures verdicts[n] <==> FitsEveryWindow(cfg, rs, verdicts, n)
  {
    var run := rs[..n + 1];
    hide Admitted, Served, Passed, Earned, FitsWindow;
    AdmittedIff(cfg, run);
    assert run[..n] == rs[..n] && run[n] == rs[n];
    forall a | 0 <= a <= n
      ensures run[a] == rs[a]
      ensures FitsWindow(cfg, rs, verdicts, a, n) <==>
                Served(cfg, rs[..n], Key(cfg, rs[n]), a) as real + 1.0 <= cfg.burst as real + Earned(cfg, rs[a].time, rs[n].time)
    {
      WindowIff(cfg, rs, verdicts, a, n);
    }
  }

  // ---------- What it means ----------

  /** The requests of one client from place `a` on. */
  function Asked(cfg: Config, rs: seq<Request>, key: string, a: nat): nat {
    if |rs| <= a then 0
    else Asked(cfg, rs[..|rs| - 1], key, a) + if Key(cfg, rs[|rs| - 1]) == key then 1 else 0
  }

  /** The admitted requests of one client from place `a` on. */
  function Served(cfg: Config, rs: seq<Request>, key: string, a: nat): nat {
    if |rs| <= a then 0
    else Served(cfg, rs[..|rs| - 1], key, a) + if Key(cfg, rs[|rs| - 1]) == key && Admitted(cfg, rs) then 1 else 0
  }

  /** What the limit leaves a client at time `now`, for the window that opens with request `a`. */
  function Allowance(cfg: Config, rs: seq<Request>, key: string, a: nat, now: real): real
    requires a < |rs|
  {
    cfg.burst as real + Earned(cfg, rs[a].time, now) - Served(cfg, rs, key, a) as real
  }

  /** The bucket of a client holds the least allowance over all windows. */
  ghost predicate HoldsLeast(cfg: Config, rs: seq<Request>, key: string, tokens: real, now: real) {
    && (forall a :: 0 <= a < |rs| && Key(cfg, rs[a]) == key ==> tokens <= Allowance(cfg, rs, key, a, now))
    && (exists a :: 0 <= a < |rs| && Key(cfg, rs[a]) == key && tokens == Allowance(cfg, rs, key, a, now))
  }

  ghost predicate Asks(cfg: Config, rs: seq<Request>, key: string) {
    exists a :: 0 <= a < |rs| && Key(cfg, rs[a]) == key
  }

  /** The level at a request is the least allowance over the windows that end with it, its own included. */
  lemma LevelIsLeast(cfg: Config, prev: seq<Request>, r: Request)
    requires var key := Key(cfg, r);
             var bs := Buckets(cfg, prev);
             && (key in bs <==> Asks(cfg, prev, key))
             && (key in bs ==> HoldsLeast(cfg, prev, key, bs[key].tokens, bs[key].lastCheck))
    ensures var key := Key(cfg, r);
            var level := Level(cfg, Buckets(cfg, prev), r);
            && level <= cfg.burst as real
            && (forall a :: 0 <= a < |prev| && Key(cfg, prev[a]) == key ==> level <= Allowance(cfg, prev, key, a, r.time))
            && (level == cfg.burst as real || exists a :: 0 <= a < |prev| && Key(cfg, prev[a]) == key && level == Allowance(cfg, prev, key, a, r.time))
  {
    var key := Key(cfg, r);
    var bs := Buckets(cfg, prev);
    var level := Level(cfg, bs, r);
    hide Buckets, Key, Served;
    hide Earned;
    EarnedAdds(cfg, r.time, r.time, r.time);
    if key in bs {
      var b := bs[key];
      forall a | 0 <= a < |prev|
        ensures Allowance(cfg, prev, key, a, r.time) == Allowance(cfg, prev, key, a, b.lastCheck) + Earned(cfg, b.lastCheck, r.time)
      {
        EarnedAdds(cfg, prev[a].time, b.lastCheck, r.time);
      }
    }
  }

  lemma AllowanceStep(cfg: Config, rs: seq<Request>, key: string, a: nat, now: real)
    requires a < |rs|
    ensures Allowance(cfg, rs, key, a, now) ==
              (if a < |rs| - 1 then Allowance(cfg, rs[..|rs| - 1], key, a, now) else cfg.burst as real + Earned(cfg, rs[a].time, now))
              - (if Key(cfg, rs[|rs| - 1]) == key && Admitted(cfg, rs) then 1.0 else 0.0)
  {
    hide Key, Admitted, Earned;
    if a == |rs| - 1 {
      assert Served(cfg, rs[..|rs| - 1], key, a) == 0;
    } else {
      assert rs[..|rs| - 1][a] == rs[a];
    }
  }

  /** A request of the client itself. */
  lemma OwnStep(cfg: Config, rs: seq<Request>, key: string)
    requires rs != [] && Key(cfg, rs[|rs| - 1]) == key
    requires var bs := Buckets(cfg, rs[..|rs| - 1]);
             && (key in bs <==> Asks(cfg, rs[..|rs| - 1], key))
             && (key in bs ==> HoldsLeast(cfg, rs[..|rs| - 1], key, bs[key].tokens, bs[key].lastCheck))
    ensures key in Buckets(cfg, rs)
    ensures var b := Buckets(cfg, rs)[key]; HoldsLeast(cfg, rs, key, b.tokens, b.lastCheck)
  {
    var n := |rs| - 1;
    var prev, r := rs[..n], rs[n];
    LevelIsLeast(cfg, prev, r);
    var level := Level(cfg, Buckets(cfg, prev), r);
    var cost := if Admitted(cfg, rs) then 1.0 else 0.0;
    var b := Buckets(cfg, rs)[key];
    assert b == Bucket(level - cost, r.time);
    forall a | 0 <= a < |rs|
      ensures Allowance(cfg, rs, key, a, r.time) == (if a < n then Allowance(cfg, prev, key, a, r.time) else cfg.burst as real) - cost
    {
      AllowanceStep(cfg, rs, key, a, r.time);
      EarnedAdds(cfg, r.time, r.time, r.time);
    }
    assert forall a :: 0 <= a < n ==> rs[a] == prev[a];
    hide Key, Level, Allowance, Earned, Buckets, Admitted;
    if level == cfg.burst as real {
      assert Key(cfg, rs[n]) == key && b.tokens == Allowance(cfg, rs, key, n, r.time);
    } else {
      var a :| 0 <= a < |prev| && Key(cfg, prev[a]) == key && level == Allowance(cfg, prev, key, a, r.time);
      assert Key(cfg, rs[a]) == key && b.tokens == Allowance(cfg, rs, key, a, r.time);
    }
  }

  /** A request of another client. */
  lemma OtherStep(cfg: Config, rs: seq<Request>, key: string, tokens: real, now: real)
    requires rs != [] && Key(cfg, rs[|rs| - 1]) != key
    ensures Asks(cfg, rs, key) <==> Asks(cfg, rs[..|rs| - 1], key)
    ensures HoldsLeast(cfg, rs, key, tokens, now) <==> HoldsLeast(cfg, rs[..|rs| - 1], key, tokens, now)
  {
    var n := |rs| - 1;
    var prev := rs[..n];
    forall a | 0 <= a < n ensures Allowance(cfg, rs, key, a, now) == Allowance(cfg, prev, key, a, now) {
      AllowanceStep(cfg, rs, key, a, now);
    }
    assert forall a :: 0 <= a < n ==> rs[a] == prev[a];
    hide Key, Allowance, Earned;
    forall a | 0 <= a < n ensures Key(cfg, rs[a]) == Key(cfg, prev[a]) {
    }
  }

  lemma {:induction false} BucketHoldsLeast(cfg: Config, rs: seq<Request>, key: string)
    ensures key in Buckets(cfg, rs) <==> Asks(cfg, rs, key)
    ensures key in Buckets(cfg, rs) ==>
              var b := Buckets(cfg, rs)[key]; HoldsLeast(cfg, rs, key, b.tokens, b.lastCheck)
  {
    hide Key, Level, HoldsLeast;
    if rs != [] {
      var prev, r := rs[..|rs| - 1], rs[|rs| - 1];
      BucketHoldsLeast(cfg, prev, key);
      if Key(cfg, r) == key {
        OwnStep(cfg, rs, key);
        assert Key(cfg, rs[|rs| - 1]) == key;
      } else {
        assert key in Buckets(cfg, rs) <==> key in Buckets(cfg, prev);
        var b := if key in Buckets(cfg, rs) then Buckets(cfg, rs)[key] else Bucket(0.0, 0.0);
        OtherStep(cfg, rs, key, b.tokens, b.lastCheck);
      }
    }
  }

  /** The whole meaning of the limiter, for any clock: a request is let through exactly when that keeps
      every window of its client within the burst and the rate. Other clients do not matter. */
  lemma AdmittedIff(cfg: Config, rs: seq<Request>)
    requires rs != []
    ensures var n := |rs| - 1; var r := rs[n]; var key := Key(cfg, r);
            Admitted(cfg, rs) <==>
              forall a :: 0 <= a <= n && Key(cfg, rs[a]) == key ==>
                Served(cfg, rs[..n], key, a) as real + 1.0 <= cfg.burst as real + Earned(cfg, rs[a].time, r.time)
  {
    var n := |rs| - 1;
    var prev, r := rs[..n], rs[n];
    var key := Key(cfg, r);
    BucketHoldsLeast(cfg, prev, key);
    LevelIsLeast(cfg, prev, r);
    assert Served(cfg, prev, key, n) == 0;
    EarnedAdds(cfg, r.time, r.time, r.time);
    assert forall a :: 0 <= a < n ==> rs[a] == prev[a];
    hide Key, Buckets, Served, Level, Earned;
    if Level(cfg, Buckets(cfg, prev), r) != cfg.burst as real {
      var a :| 0 <= a < n && Key(cfg, prev[a]) == key && Level(cfg, Buckets(cfg, prev), r) == Allowance(cfg, prev, key, a, r.time);
      assert Key(cfg, rs[a]) == key;
    } else {
      assert Key(cfg, rs[n]) == key;
    }
  }

  // ---------- Consequences ----------

  /** No client ever gets more than the burst plus the rate times the length of a window, up to its last
      admitted request. The clock need not be monotone. */
  lemma {:induction false} WindowBound(cfg: Config, rs: seq<Request>, key: string, a: nat)
    requires a < |rs| && Key(cfg, rs[a]) == key && Served(cfg, rs, key, a) > 0
    ensures exists b :: a <= b < |rs| && Key(cfg, rs[b]) == key && Served(cfg, rs, key, a) as real <= cfg.burst as real + Earned(cfg, rs[a].time, rs[b].time)
    decreases |rs|
  {
    hide Earned;
    var n := |rs| - 1;
    var prev := rs[..n];
    if Key(cfg, rs[n]) == key && Admitted(cfg, rs) {
      AdmittedIff(cfg, rs);
      hide Admitted, Key;
      assert Key(cfg, rs[n]) == key;
    } else {
      assert a < n;
      WindowBound(cfg, prev, key, a);
      hide Admitted;
      var b :| a <= b < n && Key(cfg, prev[b]) == key && Served(cfg, prev, key, a) as real <= cfg.burst as real + Earned(cfg, prev[a].time, prev[b].time);
      assert Key(cfg, rs[b]) == key;
    }
  }

  ghost predicate ClockGoesForward(rs: seq<Request>) {
    forall i, j :: 0 <= i <= j < |rs| ==> rs[i].time <= rs[j].time
  }

  /** With a forward clock: over any window of time, at most the burst plus the rate times its length. */
  lemma {:induction false} TimeWindowBound(cfg: Config, rs: seq<Request>, key: string, a: nat, s: real, t: real)
    requires ClockGoesForward(rs) && cfg.limit >= 0.0 && a <= |rs|
    requires forall k :: a <= k < |rs| ==> s <= rs[k].time <= t
    ensures Served(cfg, rs, key, a) > 0 ==> Served(cfg, rs, key, a) as real <= cfg.burst as real + Earned(cfg, s, t)
    decreases |rs| - a
  {
    if Served(cfg, rs, key, a) > 0 {
      if Key(cfg, rs[a]) == key {
        WindowBound(cfg, rs, key, a);
        hide Served, Key;
        var b :| a <= b < |rs| && Key(cfg, rs[b]) == key && Served(cfg, rs, key, a) as real <= cfg.burst as real + Earned(cfg, rs[a].time, rs[b].time);
        EarnedGrows(cfg, s, t, rs[a].time, rs[b].time);
      } else {
        SkipOther(cfg, rs, key, a);
        TimeWindowBound(cfg, rs, key, a + 1, s, t);
      }
    }
  }

  lemma EarnedGrows(cfg: Config, s: real, t: real, x: real, y: real)
    requires s <= x <= y <= t && cfg.limit >= 0.0
    ensures 0.0 <= Earned(cfg, x, y) <= Earned(cfg, s, t)
  {
    assert 0.0 <= (x - s) * cfg.limit && 0.0 <= (t - y) * cfg.limit && 0.0 <= (y - x) * cfg.limit;
  }

  lemma {:induction false} SkipOther(cfg: Config, rs: seq<Request>, key: string, a: nat)
    requires a < |rs| && Key(cfg, rs[a]) != key
    ensures Served(cfg, rs, key, a) == Served(cfg, rs, key, a + 1)
    decreases |rs|
  {
    hide Admitted;
    if a < |rs| - 1 {
      SkipOther(cfg, rs[..|rs| - 1], key, a);
    } else {
      assert Served(cfg, rs[..|rs| - 1], key, a) == 0;
    }
  }

  /** A client that keeps to the rate is never refused, whatever the others do. */
  lemma SteadyClientPasses(cfg: Config, rs: seq<Request>)
    requires rs != [] && cfg.burst >= 1
    requires var n := |rs| - 1; var key := Key(cfg, rs[n]);
             forall a :: 0 <= a < n && Key(cfg, rs[a]) == key ==>
               Asked(cfg, rs[..n], key, a) as real <= Earned(cfg, rs[a].time, rs[n].time) + (cfg.burst - 1) as real
    ensures Admitted(cfg, rs)
  {
    var n := |rs| - 1;
    var key := Key(cfg, rs[n]);
    AdmittedIff(cfg, rs);
    EarnedAdds(cfg, rs[n].time, rs[n].time, rs[n].time);
    hide Admitted, Key, Earned;
    forall a | 0 <= a <= n ensures Served(cfg, rs[..n], key, a) <= Asked(cfg, rs[..n], key, a) && (a == n ==> Asked(cfg, rs[..n], key, a) == 0) {
      ServedWereAsked(cfg, rs[..n], key, a);
    }
  }

  lemma {:induction false} ServedWereAsked(cfg: Config, rs: seq<Request>, key: string, a: nat)
    ensures Served(cfg, rs, key, a) <= Asked(cfg, rs, key, a)
    decreases |rs|
  {
    hide Admitted, Key;
    if a < |rs| {
      ServedWereAsked(cfg, rs[..|rs| - 1], key, a);
    }
  }

  /** With a forward clock, tokens stay between nothing and the burst. */
  lemma {:induction false} TokensStayInRange(cfg: Config, rs: seq<Request>, key: string)
    requires ClockGoesForward(rs) && cfg.limit >= 0.0 && cfg.burst >= 0
    ensures key in Buckets(cfg, rs) ==>
              && 0.0 <= Buckets(cfg, rs)[key].tokens <= cfg.burst as real
              && exists k :: 0 <= k < |rs| && rs[k].time == Buckets(cfg, rs)[key].lastCheck
    decreases |rs|
  {
    if rs != [] {
      var n := |rs| - 1;
      var prev := rs[..n];
      TokensStayInRange(cfg, prev, key);
      hide Earned, Key;
      var bs := Buckets(cfg, prev);
      if key in bs {
        var k :| 0 <= k < n && prev[k].time == bs[key].lastCheck;
        assert rs[k].time <= rs[n].time;
        EarnedGrows(cfg, rs[k].time, rs[n].time, rs[k].time, rs[n].time);
        assert rs[k].time == bs[key].lastCheck;
      }
      EarnedAdds(cfg, rs[n].time, rs[n].time, rs[n].time);
    }
  }
}
