/** The order in which a block device serves its requests (kernel/blk_drv/blk.h
    and add_request): IN_ORDER on keys and what insertion does to a queue. */
module Elevator {

  /** cmd is 0 for reads and 1 for writes, so reads go first. */
  datatype Key = Key(cmd: nat, dev: nat, block: nat)

  predicate Before(a: Key, b: Key) {
    || a.cmd < b.cmd
    || (a.cmd == b.cmd && (a.dev < b.dev || (a.dev == b.dev && a.block < b.block)))
  }

  /** 1 where the sweep turns back between two neighbours. */
  function Turn(a: Key, b: Key): nat { if Before(a, b) then 0 else 1 }

  /** How often the service order turns back: a queue with one descent is two
      strictly ascending runs, the current sweep and the next. */
  function Descents(q: seq<Key>): nat {
    if |q| < 2 then 0 else Turn(q[0], q[1]) + Descents(q[1..])
  }

  /** add_request's place for k in a queue that is not empty: never before the
      head, which is being served. */
  function Place(q: seq<Key>, k: Key): (p: nat)
    requires q != []
    ensures 1 <= p <= |q|
  {
    if |q| == 1 then 1
    else if (Before(q[0], k) || !Before(q[0], q[1])) && Before(k, q[1]) then 1
    else 1 + Place(q[1..], k)
  }

  function Insert(q: seq<Key>, k: Key): seq<Key> {
    if q == [] then [k] else q[..Place(q, k)] + [k] + q[Place(q, k)..]
  }

  ghost predicate Distinct(q: seq<Key>) {
    forall i, j :: 0 <= i < j < |q| ==> q[i] != q[j]
  }

  ghost predicate Sweeps(q: seq<Key>) { Distinct(q) && Descents(q) <= 1 }

  /** The first place where the loop of add_request stops. */
  predicate Stops(q: seq<Key>, k: Key, i: int)
    requires 0 <= i < |q|
  {
    i == |q| - 1 || ((Before(q[i], k) || !Before(q[i], q[i + 1])) && Before(k, q[i + 1]))
  }

  lemma {:induction false} PlaceIsFirstStop(q: seq<Key>, k: Key, i: nat)
    requires i < |q| && Stops(q, k, i) && forall j :: 0 <= j < i ==> !Stops(q, k, j)
    ensures Place(q, k) == i + 1
  {
    if i > 0 {
      assert !Stops(q, k, 0);
      forall j | 0 <= j < i - 1 ensures !Stops(q[1..], k, j) { assert !Stops(q, k, j + 1); }
      PlaceIsFirstStop(q[1..], k, i - 1);
    }
  }

  lemma {:induction false} DescentsConcat(s: seq<Key>, t: seq<Key>)
    ensures Descents(s + t) == Descents(s) + Descents(t) + if s != [] && t != [] then Turn(s[|s| - 1], t[0]) else 0
  {
    if s == [] {
      assert s + t == t;
    } else if t == [] {
      assert s + t == s;
    } else {
      assert (s + t)[1..] == s[1..] + t;
      DescentsConcat(s[1..], t);
    }
  }

  /** A larger key than the head of one ascending run stays inside that run. */
  lemma {:induction false} InsertInRun(q: seq<Key>, k: Key)
    requires q != [] && Descents(q) == 0 && Before(q[0], k) && k !in q
    ensures Descents(Insert(q, k)) == 0
  {
    if |q| == 1 || Place(q, k) == 1 {
      SplitDescents(q, k, 1);
    } else {
      InsertInRun(q[1..], k);
      TailInsert(q, k);
    }
  }

  lemma {:induction false} TailInsert(q: seq<Key>, k: Key)
    requires |q| >= 2 && Place(q, k) > 1
    ensures Insert(q, k) == [q[0]] + Insert(q[1..], k) && Insert(q, k)[1..] == Insert(q[1..], k)
    ensures Insert(q[1..], k)[0] == q[1]
  {
    var p := Place(q[1..], k);
    assert Place(q, k) == p + 1;
    hide Place;
    CutTail(q, k, p);
  }

  lemma CutTail(q: seq<Key>, k: Key, p: nat)
    requires 1 <= p < |q|
    ensures q[..p + 1] + [k] + q[p + 1..] == [q[0]] + (q[1..][..p] + [k] + q[1..][p..])
  { }

  lemma CutDescents(q: seq<Key>, p: nat)
    requires 1 <= p <= |q|
    ensures Descents(q) == Descents(q[..p]) + (if p < |q| then Turn(q[p - 1], q[p]) else 0) + Descents(q[p..])
  {
    DescentsConcat(q[..p], q[p..]);
    assert q[..p] + q[p..] == q;
  }

  lemma SplitDescents(q: seq<Key>, k: Key, p: nat)
    requires 1 <= p <= |q|
    ensures Descents(q[..p] + [k] + q[p..])
         == Descents(q[..p]) + Turn(q[p - 1], k) + (if p < |q| then Turn(k, q[p]) else 0) + Descents(q[p..])
    ensures Descents(q) == Descents(q[..p]) + (if p < |q| then Turn(q[p - 1], q[p]) else 0) + Descents(q[p..])
  {
    CutDescents(q, p);
    var front := q[..p] + [k];
    CutDescents(front + q[p..], p + 1);
    CutDescents(front, p);
    assert (front + q[p..])[..p + 1] == front && (front + q[p..])[p + 1..] == q[p..] && front[..p] == q[..p]
           && front[p..] == [k];
  }

  /** Where a request goes in before the end it turns nothing that did not turn
      already. */
  lemma {:induction false} InsideAddsNoTurn(q: seq<Key>, k: Key)
    requires q != [] && k !in q && Place(q, k) < |q|
    ensures var p := Place(q, k); Turn(q[p - 1], k) + Turn(k, q[p]) == Turn(q[p - 1], q[p])
  {
    if Place(q, k) > 1 { InsideAddsNoTurn(q[1..], k); }
  }

  /** The invariant of every queue. */
  lemma {:induction false} InsertKeepsSweeps(q: seq<Key>, k: Key)
    requires Sweeps(q) && k !in q
    ensures Sweeps(Insert(q, k))
  {
    if q != [] {
      InsertDescents(q, k);
      var p := Place(q, k);
      assert forall i :: 0 <= i < |q| ==> q[i] != k;
    }
  }

  lemma {:induction false} InsertDescents(q: seq<Key>, k: Key)
    requires q != [] && Descents(q) <= 1 && k !in q
    ensures Descents(Insert(q, k)) <= 1
  {
    if |q| == 1 || Place(q, k) == 1 {
      SplitDescents(q, k, 1);
      if |q| > 1 { InsideAddsNoTurn(q, k); }
    } else {
      TailInsert(q, k);
      if Turn(q[0], q[1]) == 1 {
        assert Before(q[1], k);
        InsertInRun(q[1..], k);
      } else {
        InsertDescents(q[1..], k);
      }
    }
  }

  lemma PopKeepsSweeps(q: seq<Key>)
    requires Sweeps(q) && q != []
    ensures Sweeps(q[1..])
  { }

  /** A new request never moves a waiting one into a later sweep: the queue up to
      any old request turns back exactly as often as before. */
  lemma {:induction false} InsertKeepsTurnsAhead(q: seq<Key>, k: Key, i: nat)
    requires i < |q| && k !in q
    ensures var j := if i < Place(q, k) then i else i + 1;
      && Insert(q, k)[j] == q[i] && Insert(q, k)[0] == q[0]
      && Descents(Insert(q, k)[..j + 1]) == Descents(q[..i + 1])
  {
    var p := Place(q, k);
    if i < p {
      assert Insert(q, k)[..i + 1] == q[..i + 1];
    } else {
      assert Insert(q, k)[..i + 2] == q[..i + 1][..p] + [k] + q[..i + 1][p..];
      InsideAddsNoTurn(q, k);
      InsideTurns(q[..i + 1], k, p);
    }
  }

  lemma InsideTurns(q: seq<Key>, k: Key, p: nat)
    requires 1 <= p < |q| && Turn(q[p - 1], k) + Turn(k, q[p]) == Turn(q[p - 1], q[p])
    ensures Descents(q[..p] + [k] + q[p..]) == Descents(q)
  {
    hide Descents, Turn;
    SplitDescents(q, k, p);
  }

  /** What happens to one device's queue. */
  datatype Event = Add(key: Key) | Done

  predicate Fits(q: seq<Key>, e: Event) { if e.Add? then e.key !in q else q != [] }

  function After(q: seq<Key>, e: Event): seq<Key>
    requires Fits(q, e)
  {
    if e.Add? then Insert(q, e.key) else q[1..]
  }

  /** Every event fits the queue it meets. */
  predicate Possible(q: seq<Key>, es: seq<Event>)
    decreases |es|
  {
    es == [] || (Fits(q, es[0]) && Possible(After(q, es[0]), es[1..]))
  }

  /** All requests in the order they were or will be served, if no more come. */
  function Line(q: seq<Key>, es: seq<Event>): seq<Key>
    requires Possible(q, es)
    decreases |es|
  {
    if es == [] then q
    else (if es[0].Done? then [q[0]] else []) + Line(After(q, es[0]), es[1..])
  }

  /** The queue after the events, and what was served during them. */
  function Final(q: seq<Key>, es: seq<Event>): seq<Key>
    requires Possible(q, es)
    decreases |es|
  {
    if es == [] then q else Final(After(q, es[0]), es[1..])
  }

  function Served(q: seq<Key>, es: seq<Event>): seq<Key>
    requires Possible(q, es)
    decreases |es|
  {
    if es == [] then [] else (if es[0].Done? then [q[0]] else []) + Served(After(q, es[0]), es[1..])
  }

  lemma {:induction false} LineIs(q: seq<Key>, es: seq<Event>)
    requires Possible(q, es)
    ensures Line(q, es) == Served(q, es) + Final(q, es)
    decreases |es|
  {
    if es != [] { LineIs(After(q, es[0]), es[1..]); }
  }

  lemma {:induction false} OneMore(q: seq<Key>, es: seq<Event>, e: Event)
    requires Possible(q, es) && Fits(Final(q, es), e)
    ensures Possible(q, es + [e]) && Final(q, es + [e]) == After(Final(q, es), e)
    ensures Served(q, es + [e]) == Served(q, es) + if e.Done? then [Final(q, es)[0]] else []
    decreases |es|
  {
    if es == [] {
      assert ([] + [e])[1..] == [];
      assert Possible(After(q, e), []);
    } else {
      OneMore(After(q, es[0]), es[1..], e);
      assert (es + [e])[1..] == es[1..] + [e];
    }
  }

  /** The requests served up to and including the first time x is. */
  function Until(line: seq<Key>, x: Key): (r: seq<Key>)
    ensures r <= line
  {
    if line == [] then [] else if line[0] == x then [x] else [line[0]] + Until(line[1..], x)
  }

  lemma {:induction false} UntilIs(s: seq<Key>, x: Key, t: seq<Key>)
    requires x !in s
    ensures Until(s + [x] + t, x) == s + [x]
  {
    if s == [] {
      assert ([] + [x] + t)[0] == x;
    } else {
      assert (s + [x] + t)[1..] == s[1..] + [x] + t;
      UntilIs(s[1..], x, t);
      assert [s[0]] + (s[1..] + [x]) == s + [x];
    }
  }

  lemma UntilHere(s: seq<Key>, q: seq<Key>, i: nat)
    requires i < |q| && Distinct(q) && q[i] !in s
    ensures Until(s + q, q[i]) == s + q[..i + 1]
  {
    UntilIs(s + q[..i], q[i], q[i + 1..]);
    assert s + q[..i] + [q[i]] + q[i + 1..] == s + q;
    assert s + q[..i] + [q[i]] == s + q[..i + 1];
  }

  lemma AddAhead(s: seq<Key>, q: seq<Key>, k: Key, i: nat)
    requires i < |q| && k !in q && Distinct(q)
    ensures var q' := Insert(q, k); var j := if i < Place(q, k) then i else i + 1;
      j < |q'| && q'[j] == q[i] && Distinct(q') && Descents(s + q'[..j + 1]) == Descents(s + q[..i + 1])
  {
    var q' := Insert(q, k);
    var j := if i < Place(q, k) then i else i + 1;
    InsertKeepsTurnsAhead(q, k, i);
    DescentsConcat(s, q[..i + 1]);
    DescentsConcat(s, q'[..j + 1]);
    InsertDistinct(q, k);
  }

  lemma LineStep(s: seq<Key>, q: seq<Key>, es: seq<Event>)
    requires Possible(q, es) && es != []
    ensures Fits(q, es[0]) && Possible(After(q, es[0]), es[1..])
    ensures s + Line(q, es) == (if es[0].Done? then s + [q[0]] else s) + Line(After(q, es[0]), es[1..])
  {
    assert es[0].Add? ==> [] + Line(After(q, es[0]), es[1..]) == Line(After(q, es[0]), es[1..]);
  }

  lemma {:induction false} LineOf(s: seq<Key>, q: seq<Key>, es: seq<Event>, i: nat)
    requires Possible(q, es) && Distinct(q) && i < |q| && q[i] !in s && Descents(s + q[..i + 1]) <= 1
    ensures Descents(Until(s + Line(q, es), q[i])) <= 1
    decreases |es|
  {
    hide Descents, Until, Insert, Line, Possible, Place, Distinct;
    if es == [] {
      LineEmpty(q, es);
      UntilHere(s, q, i);
    } else {
      LineStep(s, q, es);
      if es[0].Add? {
        AddAhead(s, q, es[0].key, i);
        LineOf(s, Insert(q, es[0].key), es[1..], if i < Place(q, es[0].key) then i else i + 1);
      } else {
        PopAhead(s, q, i);
        if i == 0 {
          UntilIs(s, q[0], Line(q[1..], es[1..]));
        } else {
          LineOf(s + [q[0]], q[1..], es[1..], i - 1);
        }
      }
    }
  }

  lemma PopAhead(s: seq<Key>, q: seq<Key>, i: nat)
    requires i < |q| && Distinct(q) && q[i] !in s
    ensures Distinct(q[1..])
    ensures if i == 0 then s + q[..i + 1] == s + [q[0]]
            else q[1..][i - 1] == q[i] && q[i] !in s + [q[0]] && s + q[..i + 1] == (s + [q[0]]) + q[1..][..i - 1 + 1]
  { }

  lemma LineEmpty(q: seq<Key>, es: seq<Event>)
    requires Possible(q, es) && es == []
    ensures Line(q, es) == q
  { }

  lemma {:induction false} InLine(q: seq<Key>, es: seq<Event>, x: Key)
    requires Possible(q, es) && x in q
    ensures x in Line(q, es)
    decreases |es|
  {
    if es != [] {
      LineStep([], q, es);
      assert [] + Line(q, es) == Line(q, es);
      if x in After(q, es[0]) { InLine(After(q, es[0]), es[1..], x); }
    }
  }

  lemma InsertDistinct(q: seq<Key>, k: Key)
    requires Distinct(q) && k !in q
    ensures Distinct(Insert(q, k))
  { }

  /** No starvation: whatever requests come later, those served up to and
      including a waiting request x are two ascending sweeps at most. */
  lemma ServedWithinTwoSweeps(q: seq<Key>, es: seq<Event>, x: Key)
    requires Possible(q, es) && Sweeps(q) && x in q
    ensures x in Line(q, es) && Descents(Until(Line(q, es), x)) <= 1
  {
    var i :| 0 <= i < |q| && q[i] == x;
    SplitDescents(q, x, i + 1);
    assert [] + q[..i + 1] == q[..i + 1];
    LineOf([], q, es, i);
    InLine(q, es, x);
    assert [] + Line(q, es) == Line(q, es);
  }

  lemma {:induction false} BeforeAll(q: seq<Key>)
    requires q != [] && Descents(q) == 0
    ensures q[0] !in q[1..] && forall j :: 0 < j < |q| ==> Before(q[0], q[j])
  {
    if |q| > 1 {
      BeforeAll(q[1..]);
      forall j | 1 < j < |q| ensures Before(q[0], q[j]) { assert q[j] == q[1..][j - 1]; }
    }
  }

  lemma {:induction false} RunBound(q: seq<Key>, keys: set<Key>)
    requires Descents(q) == 0 && forall k :: k in q ==> k in keys
    ensures |q| <= |keys|
  {
    if q != [] {
      BeforeAll(q);
      RunBound(q[1..], keys - {q[0]});
    }
  }

  lemma {:induction false} SweepBound(q: seq<Key>, keys: set<Key>)
    requires Descents(q) <= 1 && forall k :: k in q ==> k in keys
    ensures |q| <= 2 * |keys|
  {
    if d: nat :| 0 < d < |q| && !Before(q[d - 1], q[d]) {
      SplitDescents(q, q[d], d);
      RunBound(q[..d], keys);
      RunBound(q[d..], keys);
    } else {
      NoTurn(q);
      RunBound(q, keys);
    }
  }

  lemma {:induction false} NoTurn(q: seq<Key>)
    requires forall d :: 0 < d < |q| ==> Before(q[d - 1], q[d])
    ensures Descents(q) == 0
  {
    if |q| > 1 {
      forall d | 0 < d < |q[1..]| ensures Before(q[1..][d - 1], q[1..][d]) { assert Before(q[d + 1 - 1], q[d + 1]); }
      NoTurn(q[1..]);
    }
  }

  lemma {:induction false} UntilEnds(line: seq<Key>, x: Key)
    requires x in line
    ensures Until(line, x) != [] && x in Until(line, x)
  {
    if line[0] != x { UntilEnds(line[1..], x); }
  }

  /** A bound on the wait: on a device with keys `keys`, a request is served at
      the latest as the 2*|keys|-th from the moment it is queued. */
  lemma ServedInTime(q: seq<Key>, es: seq<Event>, x: Key, keys: set<Key>)
    requires Possible(q, es) && Sweeps(q) && x in q && forall k :: k in Line(q, es) ==> k in keys
    ensures x in Until(Line(q, es), x) && 0 < |Until(Line(q, es), x)| <= 2 * |keys|
  {
    ServedWithinTwoSweeps(q, es, x);
    UntilEnds(Line(q, es), x);
    SweepBound(Until(Line(q, es), x), keys);
  }
}
