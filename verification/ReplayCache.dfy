/**
  The replay caches of the two lanes. Both are meant to be one bounded FIFO window of keys; the
  C lane keeps it in a ring of slots, the Rust lane in a hash set beside a queue.
*/
module ReplayCache {
  import opened Bytes

  type Key = seq<byte>

  // ---- The window ----

  function Push(w: seq<Key>, cap: nat, key: Key): (r: (seq<Key>, bool)) {
    if key in w then (w, false)
    else if cap == 0 then (w, true)
    else if |w| < cap then (w + [key], true)
    else if w == [] then ([key], true)
    else (w[1..] + [key], true)
  }

  ghost predicate Distinct(w: seq<Key>) {
    forall i, j | 0 <= i < j < |w| :: w[i] != w[j]
  }

  lemma PushKeeps(w: seq<Key>, cap: nat, key: Key)
    requires Distinct(w) && |w| <= cap
    ensures Distinct(Push(w, cap, key).0) && |Push(w, cap, key).0| <= cap
    ensures cap > 0 ==> key in Push(w, cap, key).0
  {
    var v := Push(w, cap, key).0;
    if key !in w && cap > 0 {
      assert v[|v| - 1] == key;
    }
  }

  // ---- Runs of inserts ----

  /** The keys a run of inserts accepts, in order. */
  function Accepted(w: seq<Key>, cap: nat, keys: seq<Key>): seq<Key>
    decreases keys
  {
    if keys == [] then []
    else
      var (v, fresh') := Push(w, cap, keys[0]);
      (if fresh' then [keys[0]] else []) + Accepted(v, cap, keys[1..])
  }

  function After(w: seq<Key>, cap: nat, keys: seq<Key>): seq<Key>
    decreases keys
  {
    if keys == [] then w else After(Push(w, cap, keys[0]).0, cap, keys[1..])
  }

  function Last(s: seq<Key>, n: nat): (r: seq<Key>)
    ensures |r| == if |s| <= n then |s| else n
  {
    if |s| <= n then s else s[|s| - n..]
  }

  function Extend(before: seq<Key>, cap: nat, key: Key): seq<Key> {
    if Push(Last(before, cap), cap, key).1 then before + [key] else before
  }

  lemma PushIsLast(before: seq<Key>, cap: nat, key: Key)
    requires cap > 0
    ensures Push(Last(before, cap), cap, key).0 == Last(Extend(before, cap, key), cap)
  {
  }

  lemma AcceptedStep(before: seq<Key>, cap: nat, keys: seq<Key>)
    requires cap > 0 && keys != []
    ensures var extended := Extend(before, cap, keys[0]);
            before + Accepted(Last(before, cap), cap, keys)
            == extended + Accepted(Last(extended, cap), cap, keys[1..])
  {
    hide Push, Last;
    PushIsLast(before, cap, keys[0]);
    var isNew := Push(Last(before, cap), cap, keys[0]).1;
    ConcatAssoc(before, if isNew then [keys[0]] else [],
                Accepted(Push(Last(before, cap), cap, keys[0]).0, cap, keys[1..]));
    assert before + [] == before;
  }

  /** The window always holds the last `cap` accepted keys, oldest first. */
  lemma {:induction false} WindowHoldsLastAccepted(before: seq<Key>, cap: nat, keys: seq<Key>)
    requires cap > 0
    ensures After(Last(before, cap), cap, keys) == Last(before + Accepted(Last(before, cap), cap, keys), cap)
    decreases keys
  {
    hide Push, Last;
    if keys == [] {
      assert before + [] == before;
    } else {
      PushIsLast(before, cap, keys[0]);
      AcceptedStep(before, cap, keys);
      WindowHoldsLastAccepted(Extend(before, cap, keys[0]), cap, keys[1..]);
    }
  }

  /** Every two acceptances of one key are more than `cap` acceptances apart. */
  ghost predicate Spaced(s: seq<Key>, cap: nat) {
    forall i, j | 0 <= i < j < |s| && s[i] == s[j] :: j - i > cap
  }

  lemma ExtendStaysSpaced(before: seq<Key>, cap: nat, key: Key)
    requires cap > 0 && Spaced(before, cap)
    ensures Spaced(Extend(before, cap, key), cap)
  {
    var w, extended := Last(before, cap), Extend(before, cap, key);
    assert forall x | |before| - |w| <= x < |before| :: before[x] == w[x - (|before| - |w|)];
    forall i, j | 0 <= i < j < |extended| && extended[i] == extended[j] ensures j - i > cap {
    }
  }

  lemma {:induction false} AcceptedSpacedFrom(before: seq<Key>, cap: nat, keys: seq<Key>)
    requires cap > 0 && Spaced(before, cap)
    ensures Spaced(before + Accepted(Last(before, cap), cap, keys), cap)
    decreases keys
  {
    hide Push, Last, Spaced;
    if keys == [] {
      assert before + [] == before;
    } else {
      AcceptedStep(before, cap, keys);
      ExtendStaysSpaced(before, cap, keys[0]);
      AcceptedSpacedFrom(Extend(before, cap, keys[0]), cap, keys[1..]);
    }
  }

  /**
    From an empty cache of capacity N, a key can be accepted a second time only after at least
    N other acceptances in between.
  */
  lemma ReacceptanceNeedsCapOthers(cap: nat, keys: seq<Key>, i: nat, j: nat)
    requires cap > 0
    requires i < j < |Accepted([], cap, keys)| && Accepted([], cap, keys)[i] == Accepted([], cap, keys)[j]
    ensures j - i - 1 >= cap
  {
    AcceptedSpacedFrom([], cap, keys);
    assert [] + Accepted([], cap, keys) == Accepted([], cap, keys);
  }

  /** A key just pushed stays in the window until N further keys have been accepted. */
  lemma StaysInWindow(w: seq<Key>, cap: nat, key: Key, since: seq<Key>)
    requires cap > 0 && |w| <= cap && key !in w
    requires |Accepted(Push(w, cap, key).0, cap, since)| < cap
    ensures key in After(Push(w, cap, key).0, cap, since)
  {
    hide Accepted, After;
    var v := Push(w, cap, key).0;
    assert v[|v| - 1] == key && Last(v, cap) == v;
    WindowHoldsLastAccepted(v, cap, since);
    var all := v + Accepted(v, cap, since);
    assert all[|v| - 1] == key && |all| - |Last(all, cap)| <= |v| - 1;
    assert Last(all, cap)[|v| - 1 - (|all| - |Last(all, cap)|)] == key;
  }

  /** With capacity zero (which only the Rust lane allows) nothing is ever remembered. */
  lemma {:induction false} ZeroCapacityAcceptsAll(keys: seq<Key>)
    ensures Accepted([], 0, keys) == keys && After([], 0, keys) == []
  {
    if keys != [] {
      ZeroCapacityAcceptsAll(keys[1..]);
      assert keys == [keys[0]] + keys[1..];
    }
  }

  // ---- C: a ring of slots ----

  /** Oldest first: from the slot to be overwritten next, around the ring. */
  function RingView(slots: seq<Key>, e: nat): (w: seq<Key>)
    requires e <= |slots|
    ensures |w| == |slots|
  {
    slots[e..] + slots[..e]
  }

  lemma RingOverwrite(slots: seq<Key>, e: nat, key: Key)
    requires e < |slots|
    ensures RingView(slots[e := key], (e + 1) % |slots|) == RingView(slots, e)[1..] + [key]
  {
    var next := slots[e := key];
    if e + 1 < |slots| {
      assert (e + 1) % |slots| == e + 1;
      assert next[e + 1..] == slots[e + 1..] && next[..e + 1] == slots[..e] + [key];
      assert RingView(slots, e)[1..] == slots[e + 1..] + slots[..e];
    } else {
      assert (e + 1) % |slots| == 0;
      assert RingView(slots, e)[1..] == slots[..e];
    }
  }

  lemma RingMembers(slots: seq<Key>, e: nat, key: Key)
    requires e <= |slots|
    ensures key in slots <==> key in RingView(slots, e)
  {
    assert slots == slots[..e] + slots[e..];
  }

  class RingCache {
    const keys: array<Key>
    var n: nat
    var nextEvict: nat

    ghost predicate Valid()
      reads this, keys
    {
      && n <= keys.Length && keys.Length > 0
      && nextEvict < keys.Length
      && (n < keys.Length ==> nextEvict == 0)
      && Distinct(Window())
    }

    ghost function Window(): (w: seq<Key>)
      reads this, keys
      requires n <= keys.Length && nextEvict <= n
      ensures |w| == n
    {
      RingView(keys[..n], nextEvict)
    }

    constructor (cap: nat)
      requires cap > 0
      ensures Valid() && fresh(keys) && keys.Length == cap && Window() == []
    {
      keys := new Key[cap](_ => []);
      n, nextEvict := 0, 0;
    }

    method Contains(key: Key) returns (found: bool)
      requires Valid()
      ensures found == (key in Window())
    {
      var i := 0;
      while i < n
        invariant i <= n && key !in keys[..i]
      {
        if keys[i] == key {
          assert key in keys[..n];
          RingMembers(keys[..n], nextEvict, key);
          return true;
        }
        i := i + 1;
      }
      RingMembers(keys[..n], nextEvict, key);
      return false;
    }

    method Insert(key: Key) returns (accepted: bool)
      requires Valid()
      modifies this`n, this`nextEvict, keys
      ensures Valid()
      ensures (Window(), accepted) == Push(old(Window()), keys.Length, key)
    {
      hide Distinct;
      PushKeeps(Window(), keys.Length, key);
      var present := Contains(key);
      if present { return false; }
      ghost var slots := keys[..n];
      if n < keys.Length {
        keys[n] := key;
        n := n + 1;
        assert keys[..n] == slots + [key];
        assert Window() == slots + [key] == RingView(slots, 0) + [key];
        return true;
      }
      RingOverwrite(slots, nextEvict, key);
      keys[nextEvict] := key;
      assert keys[..n] == slots[nextEvict := key];
      nextEvict := (nextEvict + 1) % keys.Length;
      return true;
    }
  }

  // ---- Rust: a set beside a queue ----

  class SetCache {
    var members: set<Key>
    var order: seq<Key>
    const cap: nat

    ghost predicate Valid()
      reads this
    {
      && Distinct(order) && |order| <= cap
      && (forall k :: k in members <==> k in order)
      && |members| == |order|
    }

    constructor (cap: nat)
      ensures Valid() && this.cap == cap && order == []
    {
      this.cap := cap;
      members, order := {}, [];
    }

    method Contains(key: Key) returns (found: bool)
      requires Valid()
      ensures found == (key in order)
    {
      return key in members;
    }

    method Insert(key: Key) returns (accepted: bool)
      requires Valid()
      modifies this`members, this`order
      ensures Valid()
      ensures (order, accepted) == Push(old(order), cap, key)
    {
      PushKeeps(order, cap, key);
      if key in members { return false; }
      if cap == 0 { return true; }
      if |members| >= cap {
        if order != [] {
          var oldest := order[0];
          order := order[1..];
          members := members - {oldest};
        }
      }
      members := members + {key};
      order := order + [key];
      accepted := true;
    }
  }

  // ---- The two caches agree on every run ----

  datatype Call = TryInsert(key: Key) | Ask(key: Key)

  function Step(w: seq<Key>, cap: nat, call: Call): (seq<Key>, bool) {
    match call
    case TryInsert(k) => Push(w, cap, k)
    case Ask(k) => (w, k in w)
  }

  function Answers(w: seq<Key>, cap: nat, calls: seq<Call>): seq<bool>
    decreases calls
  {
    if calls == [] then []
    else
      var (v, a) := Step(w, cap, calls[0]);
      [a] + Answers(v, cap, calls[1..])
  }

  method StepBoth(ring: RingCache, fifo: SetCache, call: Call) returns (a: bool, b: bool)
    requires ring.Valid() && fifo.Valid() && ring.keys.Length == fifo.cap && ring.Window() == fifo.order
    modifies ring`n, ring`nextEvict, ring.keys, fifo`members, fifo`order
    ensures ring.Valid() && fifo.Valid() && ring.Window() == fifo.order
    ensures a == b && (fifo.order, a) == Step(old(fifo.order), fifo.cap, call)
  {
    match call {
      case TryInsert(k) =>
        a := ring.Insert(k);
        b := fifo.Insert(k);
      case Ask(k) =>
        a := ring.Contains(k);
        b := fifo.Contains(k);
    }
  }

  /** Drives both caches through the same calls; they answer alike throughout. */
  method RunBoth(ring: RingCache, fifo: SetCache, calls: seq<Call>) returns (fromRing: seq<bool>, fromSet: seq<bool>)
    requires ring.Valid() && fifo.Valid() && ring.keys.Length == fifo.cap && ring.Window() == fifo.order
    modifies ring`n, ring`nextEvict, ring.keys, fifo`members, fifo`order
    ensures ring.Valid() && fifo.Valid() && ring.Window() == fifo.order
    ensures fromRing == fromSet == Answers(old(fifo.order), fifo.cap, calls)
  {
    hide Step;
    fromRing, fromSet := [], [];
    ghost var w0 := fifo.order;
    var i := 0;
    while i < |calls|
      invariant i <= |calls| && fromRing == fromSet
      invariant ring.Valid() && fifo.Valid() && ring.Window() == fifo.order
      invariant Answers(w0, fifo.cap, calls) == fromRing + Answers(fifo.order, fifo.cap, calls[i..])
    {
      assert calls[i..][1..] == calls[i + 1..];
      var a, b := StepBoth(ring, fifo, calls[i]);
      fromRing, fromSet := fromRing + [a], fromSet + [b];
      i := i + 1;
    }
  }
}
