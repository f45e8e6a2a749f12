// The replaceable, revocable deadlines of the runtime: two indexes that change together.

module RuntimeDeadlines {
  import opened Base

  /** Entries of the time index are ordered by time, then by key. */
  predicate Before(a: (int, int), b: (int, int)) {
    a.0 < b.0 || (a.0 == b.0 && a.1 < b.1)
  }

  /** Both indexes hold the same pairs. */
  ghost predicate SamePairs(byKey: map<int, int>, byTime: set<(int, int)>) {
    forall e :: e in byTime <==> e.1 in byKey && byKey[e.1] == e.0
  }

  /** The time-index entry of a key of `m`. */
  ghost function Entry(m: map<int, int>, k: int): (int, int) {
    if k in m then (m[k], k) else (0, k)
  }

  predicate IsLeast(s: set<(int, int)>, e: (int, int)) {
    e in s && forall x :: x in s ==> x == e || Before(e, x)
  }

  lemma {:induction false} HasFirst(s: set<(int, int)>) returns (first: (int, int))
    requires s != {}
    ensures IsLeast(s, first)
    decreases |s|
  {
    var e :| e in s;
    first := e;
    if s != {e} {
      var rest := s - {e};
      var f := HasFirst(rest);
      if !Before(e, f) {
        first := f;
      }
      forall x | x in s ensures x == first || Before(first, x) {
        assert x == e || x in rest;
      }
    }
  }

  /** `due` lists exactly the keys of `m` that are due at `now`, in order of time, then key. */
  ghost predicate IsDueList(m: map<int, int>, now: int, due: seq<int>) {
    && (forall k :: k in due <==> k in m && m[k] <= now)
    && (forall i, j :: 0 <= i < j < |due| ==> Before(Entry(m, due[i]), Entry(m, due[j])))
  }

  function Later(m: map<int, int>, now: int): map<int, int> {
    map k | k in m && m[k] > now :: m[k]
  }

  /** The list of due keys is determined by the map: no order and no repetition is left open. */
  lemma {:induction false} DueListUnique(m: map<int, int>, now: int, a: seq<int>, b: seq<int>)
    requires IsDueList(m, now, a) && IsDueList(m, now, b)
    ensures a == b
    decreases |a|
  {
    if a != [] {
      DueIn(m, now, a, b);
    }
    if b != [] {
      DueIn(m, now, b, a);
    }
    if a != [] {
      var k, l := a[0], b[0];
      var i :| 0 <= i < |b| && b[i] == k;
      var j :| 0 <= j < |a| && a[j] == l;
      assert k == l;
      var rest := map x | x in m && x != k :: m[x];
      DueTail(m, rest, now, a);
      DueTail(m, rest, now, b);
      DueListUnique(rest, now, a[1..], b[1..]);
      assert a == [a[0]] + a[1..] && b == [b[0]] + b[1..];
    }
  }

  /** The first key of one due list is in the other. */
  lemma DueIn(m: map<int, int>, now: int, a: seq<int>, b: seq<int>)
    requires IsDueList(m, now, a) && IsDueList(m, now, b) && a != []
    ensures a[0] in b && a[0] in m && b != []
  {
    var k := a[0];
    assert k in a;
    assert k in m && m[k] <= now;
    assert k in b;
  }

  lemma DueTail(m: map<int, int>, rest: map<int, int>, now: int, due: seq<int>)
    requires IsDueList(m, now, due) && due != [] && rest == map x | x in m && x != due[0] :: m[x]
    ensures IsDueList(rest, now, due[1..])
  {
    assert due == [due[0]] + due[1..];
    forall k ensures k in due[1..] <==> k in rest && rest[k] <= now {
      if k in due[1..] {
        var i :| 0 <= i < |due[1..]| && due[1..][i] == k;
        assert due[i + 1] == k && k in due;
      }
    }
    forall i, j | 0 <= i < j < |due[1..]| ensures Before(Entry(rest, due[1..][i]), Entry(rest, due[1..][j])) {
      assert due[1..][i] in due[1..] && due[1..][j] in due[1..];
    }
  }

  /** `key` has the earliest entry of `m`. */
  ghost predicate IsFirst(m: map<int, int>, key: int) {
    key in m && forall k :: k in m && k != key ==> Before((m[key], key), (m[k], k))
  }

  /** `due` holds the keys popped from `m` so far, in order, and `rest` what is left. */
  ghost predicate Popped(m: map<int, int>, rest: map<int, int>, due: seq<int>) {
    && (forall k :: k in rest ==> k in m && rest[k] == m[k])
    && (forall k :: k in due <==> k in m && k !in rest)
    && (forall i, j :: 0 <= i < j < |due| ==> Before(Entry(m, due[i]), Entry(m, due[j])))
    && (forall i, k :: 0 <= i < |due| && k in rest ==> Before(Entry(m, due[i]), Entry(m, k)))
  }

  lemma PopOne(m: map<int, int>, rest: map<int, int>, due: seq<int>, key: int)
    requires Popped(m, rest, due) && IsFirst(rest, key)
    ensures Popped(m, rest - {key}, due + [key])
  {
    var due', rest' := due + [key], rest - {key};
    assert due'[|due|] == key;
    forall k ensures k in due' <==> k in m && k !in rest' {
      assert k in due' <==> k in due || k == key;
    }
  }

  lemma LeastIsFirst(byKey: map<int, int>, byTime: set<(int, int)>, f: (int, int))
    requires SamePairs(byKey, byTime) && IsLeast(byTime, f)
    ensures IsFirst(byKey, f.1) && byKey[f.1] == f.0
  {
    forall k | k in byKey && k != f.1 ensures Before(f, (byKey[k], k)) {
      var x := (byKey[k], k);
      assert x in byTime && x != f;
    }
  }

  lemma PoppedAllDue(m: map<int, int>, rest: map<int, int>, due: seq<int>, now: int)
    requires Popped(m, rest, due)
    requires forall k :: k in due ==> m[k] <= now
    requires forall k :: k in rest ==> rest[k] > now
    ensures IsDueList(m, now, due) && rest == Later(m, now)
  {
    forall k ensures k in rest <==> k in Later(m, now) {
      if k in m && k !in rest {
        assert k in due;
      }
    }
    assert forall k :: k in rest ==> rest[k] == Later(m, now)[k];
    assert rest.Keys == Later(m, now).Keys;
    forall k ensures k in due <==> k in m && m[k] <= now {
      if k in m && k !in due {
        assert k in rest;
      }
    }
  }

  class Deadlines {
    var byKey: map<int, int>
    var byTime: set<(int, int)>

    ghost predicate Valid()
      reads this
    {
      SamePairs(byKey, byTime)
    }

    constructor ()
      ensures Valid() && byKey == map[]
    {
      byKey, byTime := map[], {};
    }

    method Set(key: int, at: int)
      requires Valid()
      modifies this
      ensures Valid() && byKey == old(byKey)[key := at]
    {
      Remove(key);
      byKey := byKey[key := at];
      byTime := byTime + {(at, key)};
    }

    method Remove(key: int)
      requires Valid()
      modifies this
      ensures Valid() && byKey == old(byKey) - {key}
    {
      if key in byKey {
        var at := byKey[key];
        byKey := byKey - {key};
        byTime := byTime - {(at, key)};
      }
    }

    /** The earliest entry of the time index. */
    method First() returns (e: Option<(int, int)>)
      requires Valid()
      ensures e.None? <==> byKey == map[]
      ensures e.Some? ==> IsFirst(byKey, e.value.1) && e.value.0 == byKey[e.value.1]
    {
      assert forall k :: k in byKey ==> (byKey[k], k) in byTime;
      if byTime == {} {
        return None;
      }
      ghost var least := HasFirst(byTime);
      var f :| f in byTime && IsLeast(byTime, f);
      LeastIsFirst(byKey, byTime, f);
      return Some(f);
    }

    /** The next instant at which something is due: the minimum of all deadlines. */
    method Next() returns (at: Option<int>)
      requires Valid()
      ensures at.None? <==> byKey == map[]
      ensures at.Some? ==> (exists k :: k in byKey && byKey[k] == at.value)
                           && forall k :: k in byKey ==> at.value <= byKey[k]
    {
      var e := First();
      at := if e.Some? then Some(e.value.0) else None;
    }

    method TakeDue(now: int) returns (due: seq<int>)
      requires Valid()
      modifies this
      ensures Valid()
      ensures IsDueList(old(byKey), now, due)
      ensures byKey == Later(old(byKey), now)
    {
      due := [];
      ghost var m := byKey;
      var e := First();
      while e.Some? && e.value.0 <= now
        invariant Valid()
        invariant Popped(m, byKey, due)
        invariant forall k :: k in due ==> m[k] <= now
        invariant e.None? <==> byKey == map[]
        invariant e.Some? ==> IsFirst(byKey, e.value.1) && e.value.0 == byKey[e.value.1]
        decreases |byKey|
      {
        var key := e.value.1;
        PopOne(m, byKey, due, key);
        assert byKey.Keys == (byKey - {key}).Keys + {key};
        byTime := byTime - {e.value};
        byKey := byKey - {key};
        due := due + [key];
        e := First();
      }
      PoppedAllDue(m, byKey, due, now);
    }
  }
}
