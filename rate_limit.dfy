/**
 * `rate_limit_check`: an in-memory sliding window per client address. The
 * store maps each client to the times of its admitted requests; one store
 * serves every endpoint, each endpoint passing its own limit and window.
 * Times are seconds, as reals.
 */
module RateLimit {

  /** The requests of `history` still inside the window that ends at `now`, in order. */
  function Recent(history: seq<real>, now: real, window: int): (r: seq<real>)
    ensures forall t :: t in r <==> t in history && now - t < window as real
    ensures |r| <= |history|
  {
    if history == [] then []
    else
      var rest := Recent(history[1..], now, window);
      assert history == [history[0]] + history[1..];
      if now - history[0] < window as real then [history[0]] + rest else rest
  }

  /** Pruning distributes over concatenation: it judges every request on its own. */
  lemma {:induction false} RecentAppend(a: seq<real>, b: seq<real>, now: real, window: int)
    ensures Recent(a + b, now, window) == Recent(a, now, window) + Recent(b, now, window)
  {
    if a == [] {
      assert a + b == b;
    } else {
      assert (a + b)[0] == a[0] && (a + b)[1..] == a[1..] + b;
      RecentAppend(a[1..], b, now, window);
    }
  }

  /** Pruning keeps one request exactly when it is younger than the window. */
  lemma RecentOne(t: real, now: real, window: int)
    ensures Recent([t], now, window) == if now - t < window as real then [t] else []
  {
    assert [t][1..] == [];
  }

  /** The outcome of one check: whether the request is admitted, and the history kept for the client. */
  datatype Decision = Decision(allowed: bool, history: seq<real>)

  /**
   * One check: forget the requests outside the window, refuse when as many
   * as the limit remain, otherwise record this request.
   */
  function Decide(history: seq<real>, now: real, maxRequests: int, window: int): (d: Decision)
    ensures d.allowed ==> |Recent(history, now, window)| < maxRequests
  {
    var recent := Recent(history, now, window);
    if |recent| >= maxRequests then Decision(false, recent) else Decision(true, recent + [now])
  }

  class RateLimiter {
    /** `rate_limit_store`: client address to the times of its recorded requests. */
    var store: map<string, seq<real>>

    constructor()
      ensures store == map[]
    {
      store := map[];
    }

    /** The history of a client, empty for one never seen. */
    function History(client: string): seq<real>
      reads this
    {
      if client in store then store[client] else []
    }

    /** `rate_limit_check`: admits the request or refuses it (HTTP 429); the pruned history is kept either way. */
    method Check(client: string, now: real, maxRequests: int, window: int) returns (allowed: bool)
      modifies this
      ensures var d := Decide(old(History(client)), now, maxRequests, window);
        allowed == d.allowed && store == old(store)[client := d.history]
      ensures forall c :: c != client ==> History(c) == old(History(c))
    {
      if client !in store {
        store := store[client := []];
      }
      var kept := Recent(store[client], now, window);
      store := store[client := kept];
      if |kept| >= maxRequests {
        allowed := false;
      } else {
        store := store[client := kept + [now]];
        allowed := true;
      }
    }
  }

  /** A request is refused exactly when the window already holds `maxRequests` of the client's requests. */
  lemma DecideRefusesFullWindow(history: seq<real>, now: real, maxRequests: int, window: int)
    ensures var d := Decide(history, now, maxRequests, window);
      && (!d.allowed <==> |Recent(history, now, window)| >= maxRequests)
      && (d.allowed ==> d.history == Recent(history, now, window) + [now])
      && (!d.allowed ==> d.history == Recent(history, now, window))
  {
  }

  /**
   * What a check leaves for the client: only requests inside the window
   * (the admitted one too, when the window is positive), and no more than
   * the limit when the request is admitted.
   */
  lemma DecideKeepsWindow(history: seq<real>, now: real, maxRequests: int, window: int)
    requires window > 0
    ensures var d := Decide(history, now, maxRequests, window);
      && (forall t :: t in d.history ==> now - t < window as real)
      && (d.allowed ==> |d.history| <= maxRequests)
  {
  }

  /** Pruning twice, the second time at a later moment, is pruning once at the later moment. */
  lemma {:induction false} RecentLater(history: seq<real>, now: real, later: real, window: int)
    requires now <= later
    ensures Recent(Recent(history, now, window), later, window) == Recent(history, later, window)
  {
    if history != [] {
      RecentLater(history[1..], now, later, window);
    }
  }

  /** An admitted request lands in its own window, when the window is positive. */
  lemma {:induction false} RecentKeepsNow(kept: seq<real>, now: real, window: int)
    requires window > 0
    requires forall t :: t in kept ==> now - t < window as real
    ensures Recent(kept + [now], now, window) == kept + [now]
  {
    if kept == [] {
      assert Recent([now], now, window) == [now] + Recent([], now, window);
    } else {
      assert (kept + [now])[1..] == kept[1..] + [now];
      assert kept[0] in kept;
      assert forall t :: t in kept[1..] ==> t in kept;
      RecentKeepsNow(kept[1..], now, window);
    }
  }

  /**
   * With one limit and one window in use and time not running backwards, a
   * client never has more than `maxRequests` recorded requests in a window:
   * the bound survives every further check.
   */
  lemma WindowBoundKept(history: seq<real>, now: real, later: real, maxRequests: int, window: int)
    requires now <= later && window > 0
    requires |Recent(history, now, window)| <= maxRequests
    ensures |Recent(Decide(history, later, maxRequests, window).history, later, window)| <= maxRequests
  {
    var recent := Recent(history, later, window);
    RecentLater(history, now, later, window);
    assert |recent| <= |Recent(history, now, window)|;
    if |recent| < maxRequests {
      RecentKeepsNow(recent, later, window);
    } else {
      RecentLater(recent, later, later, window);
    }
  }

  /** When every earlier request has left the window, a positive limit admits the request. */
  lemma {:induction false} ExpiredWindowAdmits(history: seq<real>, now: real, maxRequests: int, window: int)
    requires maxRequests > 0
    requires forall t :: t in history ==> now - t >= window as real
    ensures Decide(history, now, maxRequests, window).allowed
    ensures Recent(history, now, window) == []
  {
    if history != [] {
      assert history[0] in history;
      assert forall t :: t in history[1..] ==> t in history;
      ExpiredWindowAdmits(history[1..], now, maxRequests, window);
    }
  }

  /** Three requests under a limit of 3 per 300 s, at 0, 1 and 2 s, are all admitted and recorded. */
  lemma ThreeAdmitted()
    ensures Decide([], 0.0, 3, 300).allowed
    ensures Decide([0.0], 1.0, 3, 300) == Decision(true, [0.0, 1.0])
    ensures Decide([0.0, 1.0], 2.0, 3, 300) == Decision(true, [0.0, 1.0, 2.0])
  {
    assert Recent([0.0], 1.0, 300) == [0.0];
    assert [0.0, 1.0][1..] == [1.0];
    assert Recent([0.0, 1.0], 2.0, 300) == [0.0, 1.0];
  }

  /**
   * Endpoints share the client's history, and a check with a short window
   * forgets requests that a longer window still covers: after three
   * podcast requests (limit 3 per 300 s) at 0, 1 and 2 s a fourth at 101 s
   * is refused, but when a chat request (20 per 60 s) comes in between, at
   * 100 s, the fourth podcast request is admitted.
   */
  lemma ShortWindowForgetsLongWindow()
    ensures !Decide([0.0, 1.0, 2.0], 101.0, 3, 300).allowed
    ensures Decide([0.0, 1.0, 2.0], 100.0, 20, 60) == Decision(true, [100.0])
    ensures Decide([100.0], 101.0, 3, 300).allowed
  {
    var h := [0.0, 1.0, 2.0];
    assert h[1..] == [1.0, 2.0] && h[1..][1..] == [2.0];
    assert Recent(h[1..][1..], 101.0, 300) == [2.0];
    assert Recent(h[1..], 101.0, 300) == [1.0, 2.0];
    assert Recent(h, 101.0, 300) == [0.0, 1.0, 2.0];
    ExpiredWindowAdmits(h, 100.0, 20, 60);
    assert Recent([100.0], 101.0, 300) == [100.0];
  }
}
