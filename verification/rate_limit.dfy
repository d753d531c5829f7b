/** The per-client sliding-window limiter of `middleware/ratelimit.go`.
    Under its mutex one request is a sequential transition of the
    `requests` table, from client key to the instants of the requests it
    was allowed: prune the client's list, compare with the limit, then
    append or reject. The mutex, the package-level limiter and the clock
    are not modelled: the table is passed in and out, `now` is a parameter. */
module RateLimit {
  import opened Models
  import Seqs

  /** The limiter's configuration: at most `requests` per `window` (ns). */
  datatype Config = Config(requests: int, window: int)

  /** The `requests` map: client key to the instants of its allowed requests. */
  type Table = map<string, seq<Time>>

  /** Allowed requests go on to the handler; rejected ones get HTTP 429. */
  datatype Decision = Allowed | Rejected

  datatype Step = Step(table: Table, decision: Decision)

  /** `now.Sub(t) <= TimeWindow`: the window is inclusive at its far end. */
  function KeepIfRecent(now: Time, window: int): Time -> bool
  {
    t => now - t <= window
  }

  /** The cleaning loop: the instants still inside the window, in order. */
  function Prune(ts: seq<Time>, now: Time, window: int): (r: seq<Time>)
    ensures |r| <= |ts|
    ensures Seqs.IsSubsequence(r, ts)
    ensures forall t :: t in r <==> t in ts && now - t <= window
    ensures forall t :: multiset(r)[t] == if now - t <= window then multiset(ts)[t] else 0
  {
    Seqs.Filter(ts, KeepIfRecent(now, window))
  }

  /** A client's list; a missing key reads as the empty list. */
  function Stored(table: Table, key: string): seq<Time>
  {
    if key in table then table[key] else []
  }

  /** One request from client `key` at instant `now`. */
  function Handle(table: Table, cfg: Config, key: string, now: Time): (s: Step)
    ensures s.decision == Rejected <==> |Prune(Stored(table, key), now, cfg.window)| >= cfg.requests
    ensures key in s.table <==> key in table || s.decision == Allowed
    ensures s.decision == Allowed ==> s.table[key] == Prune(Stored(table, key), now, cfg.window) + [now]
    ensures s.decision == Rejected && key in table ==> s.table[key] == Prune(table[key], now, cfg.window)
    ensures forall k :: k != key ==> (k in s.table <==> k in table)
    ensures forall k :: k != key && k in table ==> s.table[k] == table[k]
  {
    var pruned := if key in table then table[key := Prune(table[key], now, cfg.window)] else table;
    if |Stored(pruned, key)| >= cfg.requests then Step(pruned, Rejected)
    else Step(pruned[key := Stored(pruned, key) + [now]], Allowed)
  }

  /** No client holds more than `requests` instants. */
  ghost predicate Bounded(table: Table, cfg: Config)
  {
    forall k :: k in table ==> |table[k]| <= cfg.requests
  }

  /** A request never lets a client's list grow past the limit. */
  lemma HandleKeepsBound(table: Table, cfg: Config, key: string, now: Time)
    requires Bounded(table, cfg)
    ensures Bounded(Handle(table, cfg, key, now).table, cfg)
  {
  }

  /** A non-positive limit rejects every request. */
  lemma NonPositiveLimitRejects(table: Table, cfg: Config, key: string, now: Time)
    requires cfg.requests <= 0
    ensures Handle(table, cfg, key, now).decision == Rejected
  {
  }

  /** With a limit of at least one, a client with no recorded request is allowed. */
  lemma FreshClientAllowed(table: Table, cfg: Config, key: string, now: Time)
    requires cfg.requests >= 1 && Stored(table, key) == []
    ensures Handle(table, cfg, key, now).decision == Allowed
    ensures Handle(table, cfg, key, now).table[key] == [now]
  {
  }

  /** One request from client `key` at instant `now`. */
  datatype Call = Call(key: string, now: Time)

  /** The table and the decisions after a sequence of requests, starting
      from the empty table the package-level limiter starts with. */
  datatype Replay = Replay(table: Table, decisions: seq<Decision>)

  function Run(cfg: Config, calls: seq<Call>): (r: Replay)
    ensures |r.decisions| == |calls|
  {
    if |calls| == 0 then Replay(map[], [])
    else
      var prev := Run(cfg, calls[..|calls| - 1]);
      var c := calls[|calls| - 1];
      var s := Handle(prev.table, cfg, c.key, c.now);
      Replay(s.table, prev.decisions + [s.decision])
  }

  /** The instants at which client `key` was allowed, in order. */
  function Admitted(calls: seq<Call>, decisions: seq<Decision>, key: string): seq<Time>
    requires |calls| == |decisions|
  {
    if |calls| == 0 then []
    else
      var n := |calls| - 1;
      Admitted(calls[..n], decisions[..n], key)
        + (if calls[n].key == key && decisions[n] == Allowed then [calls[n].now] else [])
  }

  /** A request adds its client's key when it is allowed and otherwise
      leaves the key set alone. */
  lemma HandleKeys(table: Table, cfg: Config, key: string, now: Time)
    ensures var s := Handle(table, cfg, key, now);
            s.table.Keys == table.Keys + (if s.decision == Allowed then {key} else {})
  {
  }

  /** The table holds exactly the clients that have had a request allowed:
      starting from the empty map, a key is added only by an allowed
      request and never removed. */
  lemma {:induction false} RunKeys(cfg: Config, calls: seq<Call>, key: string)
    ensures var r := Run(cfg, calls);
            key in r.table <==> Admitted(calls, r.decisions, key) != []
  {
    if |calls| > 0 {
      var n := |calls| - 1;
      var c := calls[n];
      var prev := Run(cfg, calls[..n]);
      RunKeys(cfg, calls[..n], key);
      RunLast(cfg, calls, key);
      HandleKeys(prev.table, cfg, c.key, c.now);
    }
  }

  /** Every run from the empty table stays within the limit. */
  lemma {:induction false} RunBounded(cfg: Config, calls: seq<Call>)
    ensures Bounded(Run(cfg, calls).table, cfg)
  {
    if |calls| > 0 {
      var c := calls[|calls| - 1];
      RunBounded(cfg, calls[..|calls| - 1]);
      HandleKeepsBound(Run(cfg, calls[..|calls| - 1]).table, cfg, c.key, c.now);
    }
  }

  /** Pruning at an instant, appending, then pruning at a later instant
      is pruning at the later instant alone. */
  lemma PruneLater(before: seq<Time>, tail: seq<Time>, earlier: Time, now: Time, w: int)
    requires earlier <= now
    ensures Prune(Prune(before, earlier, w) + tail, now, w) == Prune(before, now, w) + Prune(tail, now, w)
  {
    assert forall t :: KeepIfRecent(now, w)(t) ==> KeepIfRecent(earlier, w)(t);
    Seqs.FilterStronger(before, KeepIfRecent(earlier, w), KeepIfRecent(now, w));
    Seqs.FilterConcat(Prune(before, earlier, w), tail, KeepIfRecent(now, w));
  }

  /** A client's list after one request: pruned and perhaps extended if
      the request was its own, untouched otherwise. */
  lemma StoredAfterHandle(table: Table, cfg: Config, k: string, at: Time, key: string)
    ensures var s := Handle(table, cfg, k, at);
            Stored(s.table, key)
              == if k == key then Prune(Stored(table, key), at, cfg.window) + (if s.decision == Allowed then [at] else [])
                 else Stored(table, key)
  {
    var s := Handle(table, cfg, k, at);
    if k == key && s.decision == Rejected && key !in table {
      assert Prune([], at, cfg.window) == [];
    }
  }

  /** The last request of a run: its decision ends the decisions, and it
      adds its instant to its client's admitted list when allowed. */
  lemma RunLast(cfg: Config, calls: seq<Call>, key: string)
    requires |calls| > 0
    ensures var n := |calls| - 1;
            var prev := Run(cfg, calls[..n]);
            var s := Handle(prev.table, cfg, calls[n].key, calls[n].now);
            var r := Run(cfg, calls);
            r.table == s.table
            && Admitted(calls, r.decisions, key)
               == Admitted(calls[..n], prev.decisions, key)
                  + (if calls[n].key == key && s.decision == Allowed then [calls[n].now] else [])
  {
    var n := |calls| - 1;
    var r := Run(cfg, calls);
    var prev := Run(cfg, calls[..n]);
    assert r.decisions[..n] == prev.decisions;
  }

  /** What the table remembers of a client, pruned at any instant no
      earlier than every request, is exactly the client's allowed requests
      inside that window. */
  lemma {:induction false} TableTracksAdmitted(cfg: Config, calls: seq<Call>, key: string, now: Time)
    requires forall i :: 0 <= i < |calls| ==> calls[i].now <= now
    ensures var r := Run(cfg, calls);
            Prune(Stored(r.table, key), now, cfg.window)
              == Seqs.Filter(Admitted(calls, r.decisions, key), KeepIfRecent(now, cfg.window))
  {
    if |calls| > 0 {
      var n := |calls| - 1;
      var init := calls[..n];
      var c := calls[n];
      var prev := Run(cfg, init);
      var s := Handle(prev.table, cfg, c.key, c.now);
      var w := cfg.window;
      assert forall i :: 0 <= i < |init| ==> init[i].now <= now by {
        forall i | 0 <= i < |init| ensures init[i].now <= now {
          assert init[i] == calls[i];
        }
      }
      TableTracksAdmitted(cfg, init, key, now);
      var tail := if c.key == key && s.decision == Allowed then [c.now] else [];
      RunLast(cfg, calls, key);
      Seqs.FilterConcat(Admitted(init, prev.decisions, key), tail, KeepIfRecent(now, w));
      StoredAfterHandle(prev.table, cfg, c.key, c.now, key);
      if c.key == key {
        PruneLater(Stored(prev.table, key), tail, c.now, now, w);
      } else {
        assert Admitted(init, prev.decisions, key) + tail == Admitted(init, prev.decisions, key);
      }
    }
  }

  /** The sliding-window guarantee: at any instant no earlier than any
      request, the requests of one client allowed within the window ending
      there number at most the limit. */
  lemma WindowGuarantee(cfg: Config, calls: seq<Call>, key: string, now: Time)
    requires forall i :: 0 <= i < |calls| ==> calls[i].now <= now
    ensures var r := Run(cfg, calls);
            |Seqs.Filter(Admitted(calls, r.decisions, key), KeepIfRecent(now, cfg.window))|
              <= if cfg.requests < 0 then 0 else cfg.requests
  {
    TableTracksAdmitted(cfg, calls, key, now);
    RunBounded(cfg, calls);
  }
}
