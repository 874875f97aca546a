/**
  Lists of keys by last access.
 */
module RecencyList {

  predicate Distinct<T(==, !new)>(s: seq<T>) { forall i, j :: 0 <= i < j < |s| ==> s[i] != s[j] }

  /** Without the ids of a set. */
  function Drop<T(==, !new)>(s: seq<T>, ids: set<T>): (r: seq<T>)
    ensures forall k :: k in r <==> k in s && k !in ids
    ensures Distinct(s) ==> Distinct(r)
    ensures |r| <= |s| && ((forall k :: k in ids ==> k !in s) ==> r == s)
  {
    if s == [] then []
    else
      var before, last := Drop(s[..|s| - 1], ids), s[|s| - 1];
      assert s == s[..|s| - 1] + [last];
      if last in ids then before else before + [last]
  }

  lemma {:induction false} DropDrop<T(!new)>(s: seq<T>, a: set<T>, b: set<T>)
    ensures Drop(Drop(s, a), b) == Drop(s, a + b)
    decreases |s|
  {
    if s != [] {
      var before, last := s[..|s| - 1], s[|s| - 1];
      DropDrop(before, a, b);
      if last !in a { assert (Drop(before, a) + [last])[..|Drop(before, a)|] == Drop(before, a); }
    }
  }

  function KeysOf<T(==, !new)>(s: seq<T>): set<T> { set k | k in s }

  /** The distinct ids of a list of accesses, by their last access. */
  function Recency<T(==, !new)>(touches: seq<T>): (r: seq<T>)
    ensures Distinct(r) && forall k :: k in r <==> k in touches
  {
    if touches == [] then []
    else
      var last := touches[|touches| - 1];
      assert touches == touches[..|touches| - 1] + [last];
      Drop(Recency(touches[..|touches| - 1]), {last}) + [last]
  }

  lemma {:induction false} DropSame<T(!new)>(s: seq<T>, a: set<T>, b: set<T>)
    requires forall k :: k in s ==> (k in a <==> k in b)
    ensures Drop(s, a) == Drop(s, b)
    decreases |s|
  {
    if s != [] {
      assert s == s[..|s| - 1] + [s[|s| - 1]];
      DropSame(s[..|s| - 1], a, b);
    }
  }

  lemma RecencyStep<T(!new)>(touches: seq<T>, id: T)
    ensures Recency(touches + [id]) == Drop(Recency(touches), {id}) + [id]
  {
    assert (touches + [id])[..|touches|] == touches;
  }

  lemma DropEnd<T(!new)>(s: seq<T>, id: T, a: set<T>)
    requires id !in a
    ensures Drop(s + [id], a) == Drop(s, a) + [id]
  {
    assert (s + [id])[..|s|] == s;
  }

  function LastN<T(==, !new)>(s: seq<T>, n: nat): seq<T> { if |s| <= n then s else s[|s| - n..] }

  lemma {:induction false} DropConcat<T(!new)>(a: seq<T>, b: seq<T>, ids: set<T>)
    ensures Drop(a + b, ids) == Drop(a, ids) + Drop(b, ids)
    decreases |b|
  {
    if b == [] {
      assert a + b == a;
    } else {
      assert (a + b)[..|a + b| - 1] == a + b[..|b| - 1];
      DropConcat(a, b[..|b| - 1], ids);
    }
  }

  lemma {:induction false} DistinctSize<T(!new)>(s: seq<T>)
    requires Distinct(s)
    ensures |KeysOf(s)| == |s|
    decreases |s|
  {
    if s != [] {
      var before, last := s[..|s| - 1], s[|s| - 1];
      DistinctSize(before);
      assert s == before + [last];
      assert KeysOf(s) == KeysOf(before) + {last};
    }
  }

  lemma DropFirst<T(!new)>(s: seq<T>)
    requires Distinct(s) && s != []
    ensures Drop(s, {s[0]}) == s[1..]
  {
    assert s == [s[0]] + s[1..];
    DropConcat([s[0]], s[1..], {s[0]});
    assert [s[0]][..0] == [];
    assert Drop([s[0]], {s[0]}) == [];
  }

  lemma DropDistinctSize<T(!new)>(s: seq<T>, id: T)
    requires Distinct(s) && id in s
    ensures |Drop(s, {id})| == |s| - 1
  {
    DistinctSize(s);
    DistinctSize(Drop(s, {id}));
    assert KeysOf(Drop(s, {id})) == KeysOf(s) - {id};
  }

  lemma SplitAt<T(!new)>(s: seq<T>, n: nat)
    requires n <= |s|
    ensures s == s[..|s| - n] + LastN(s, n) && |LastN(s, n)| == n
  {
  }

  lemma TailOf<T(!new)>(r: seq<T>, tail: seq<T>, n: nat)
    requires tail == LastN(r, n)
    ensures |tail| <= |r| && r == r[..|r| - |tail|] + tail
    ensures |tail| == n || (|tail| < n && r[..|r| - |tail|] == [])
  {
  }

  lemma ShortTail<T(!new)>(s: seq<T>, n: nat)
    requires |s| <= n
    ensures LastN(s, n) == s
  {
  }

  /** Moving an id to the end. */
  lemma MovedToEnd<T(!new)>(b: seq<T>, x: T)
    requires Distinct(b)
    ensures |Drop(b, {x}) + [x]| == if x in b then |b| else |b| + 1
    ensures KeysOf(Drop(b, {x}) + [x]) == KeysOf(b) + {x}
  {
    hide *;
    if x in b {
      DropDistinctSize(b, x);
    } else {
      assert Drop(b, {x}) == b;
    }
    KeysOfAppend(Drop(b, {x}), x);
    KeysOfDrop(b, {x});
  }

  lemma LastNConcat<T(!new)>(a: seq<T>, b: seq<T>, n: nat)
    requires |b| >= n || a == []
    ensures LastN(a + b, n) == LastN(b, n)
  {
    if a == [] { assert a + b == b; }
  }

  lemma InOneHalf<T(!new)>(a: seq<T>, b: seq<T>, x: T)
    requires Distinct(a + b)
    ensures Distinct(a) && Distinct(b) && !(x in a && x in b)
  {
    assert forall i :: 0 <= i < |a| ==> (a + b)[i] == a[i];
    assert forall j :: 0 <= j < |b| ==> (a + b)[|a| + j] == b[j];
  }

  /** Accessing an id that is among the last n keeps the same ids and moves it to the end. */
  lemma TouchTail<T(!new)>(touches: seq<T>, log: seq<T>, id: T, n: nat)
    requires log == LastN(Recency(touches), n) && id in log
    ensures Drop(log, {id}) + [id] == LastN(Recency(touches + [id]), n)
  {
    hide *;
    var r := Recency(touches);
    TailOf(r, log, n);
    var a := r[..|r| - |log|];
    RecencyStep(touches, id);
    InOneHalf(a, log, id);
    DropConcat(a, log, {id});
    assert Drop(a, {id}) == a;
    MovedToEnd(log, id);
    var b := Drop(log, {id}) + [id];
    assert Drop(r, {id}) + [id] == a + b;
    LastNConcat(a, b, n);
    ShortTail(b, n);
  }

  /** Accessing any other id brings it in and, when there is no room, the first of them out. */
  lemma InsertTail<T(!new)>(touches: seq<T>, log: seq<T>, id: T, n: nat)
    requires log == LastN(Recency(touches), n) && id !in log
    ensures LastN(log + [id], n) == LastN(Recency(touches + [id]), n)
  {
    hide *;
    var r := Recency(touches);
    TailOf(r, log, n);
    var a := r[..|r| - |log|];
    RecencyStep(touches, id);
    DropConcat(a, log, {id});
    assert Drop(log, {id}) == log;
    assert Drop(r, {id}) + [id] == Drop(a, {id}) + (log + [id]);
    LastNConcat(Drop(a, {id}), log + [id], n);
  }

  lemma KeysOfAppend<T(!new)>(s: seq<T>, x: T)
    ensures KeysOf(s + [x]) == KeysOf(s) + {x}
  {
  }

  lemma KeysOfDrop<T(!new)>(s: seq<T>, ids: set<T>)
    ensures KeysOf(Drop(s, ids)) == KeysOf(s) - ids
  {
  }

  lemma LastNOfTail<T(!new)>(s: seq<T>, n: nat)
    requires n < |s|
    ensures LastN(s[1..], n) == LastN(s, n)
  {
  }

  lemma NoKeys<T(!new)>()
    ensures KeysOf<T>([]) == {}
  {
  }

  lemma WholeTail<T(!new)>(s: seq<T>)
    ensures LastN(s, |s|) == s && LastN(s, 0) == []
  {
  }

  lemma KeysOfMember<T(!new)>(s: seq<T>, x: T)
    ensures x in s <==> x in KeysOf(s)
  {
  }

  lemma TailStep<T(!new)>(r: seq<T>, s: set<T>, x: T)
    requires Distinct(r) && |s| <= |r| && KeysOf(LastN(r, |s|)) == s
    ensures |s + {x}| <= |Drop(r, {x}) + [x]|
    ensures KeysOf(LastN(Drop(r, {x}) + [x], |s + {x}|)) == s + {x}
  {
    hide *;
    SplitAt(r, |s|);
    var a, b := r[..|r| - |s|], LastN(r, |s|);
    InOneHalf(a, b, x);
    DropConcat(a, b, {x});
    var b' := Drop(b, {x}) + [x];
    assert Drop(r, {x}) + [x] == Drop(a, {x}) + b';
    KeysOfMember(b, x);
    MovedToEnd(b, x);
    KeysOfMember(b, x);
    SetWithOneMore(s, x);
    LastNConcat(Drop(a, {x}), b', |s + {x}|);
    WholeTail(b');
  }

  lemma SetWithOneMore<T(!new)>(s: set<T>, x: T)
    ensures |s + {x}| == if x in s then |s| else |s| + 1
  {
    if x in s { assert s + {x} == s; }
  }

  /** The tail of the recency list that holds the ids accessed from i on. */
  lemma {:induction false} RecentTail<T(!new)>(touches: seq<T>, i: nat)
    requires i <= |touches|
    ensures |KeysOf(touches[i..])| <= |Recency(touches)|
    ensures KeysOf(LastN(Recency(touches), |KeysOf(touches[i..])|)) == KeysOf(touches[i..])
    decreases |touches|
  {
    hide *;
    if i == |touches| {
      assert touches[i..] == [];
      NoKeys<T>();
      WholeTail(Recency(touches));
    } else {
      var before, x := touches[..|touches| - 1], touches[|touches| - 1];
      RecentTail(before, i);
      assert touches == before + [x] && touches[i..] == before[i..] + [x];
      KeysOfAppend(before[i..], x);
      RecencyStep(before, x);
      TailStep(Recency(before), KeysOf(before[i..]), x);
    }
  }

  /**
    What "the last n ids accessed" means: an id is among them exactly when fewer than n
    other ids were accessed since its own last access.
   */
  lemma AmongTheLast<T(!new)>(touches: seq<T>, n: nat, i: nat)
    requires i < |touches| && touches[i] !in touches[i + 1..]
    ensures touches[i] in LastN(Recency(touches), n) <==> |KeysOf(touches[i + 1..])| < n
  {
    hide *;
    var id, r := touches[i], Recency(touches);
    RecentTail(touches, i);
    RecentTail(touches, i + 1);
    var later := KeysOf(touches[i + 1..]);
    assert KeysOf(touches[i..]) == later + {id} && id !in later by { OneAfter(touches, i); }
    PlaceInTail(r, later, id);
    InTail(r, |r| - |later| - 1, n);
  }

  lemma OneAfter<T(!new)>(touches: seq<T>, i: nat)
    requires i < |touches| && touches[i] !in touches[i + 1..]
    ensures KeysOf(touches[i..]) == KeysOf(touches[i + 1..]) + {touches[i]} && touches[i] !in KeysOf(touches[i + 1..])
  {
    hide *;
    assert touches[i..] == [touches[i]] + touches[i + 1..];
    KeysOfPrepend(touches[i], touches[i + 1..]);
    KeysOfMember(touches[i + 1..], touches[i]);
  }

  lemma KeysOfPrepend<T(!new)>(x: T, s: seq<T>)
    ensures KeysOf([x] + s) == KeysOf(s) + {x}
  {
  }

  lemma InTail<T(!new)>(r: seq<T>, k: nat, n: nat)
    requires k < |r| && Distinct(r)
    ensures r[k] in LastN(r, n) <==> |r| - n <= k
  {
    if n < |r| {
      if |r| - n <= k { assert LastN(r, n)[k - (|r| - n)] == r[k]; }
      if r[k] in LastN(r, n) {
        var j :| 0 <= j < n && LastN(r, n)[j] == r[k];
        assert r[|r| - n + j] == r[k];
      }
    }
  }

  lemma PlaceInTail<T(!new)>(r: seq<T>, later: set<T>, id: T)
    requires id !in later && |later + {id}| <= |r|
    requires KeysOf(LastN(r, |later|)) == later && KeysOf(LastN(r, |later + {id}|)) == later + {id}
    ensures |later| < |r| && r[|r| - |later| - 1] == id
  {
    assert |later + {id}| == |later| + 1;
    var tail := LastN(r, |later| + 1);
    assert tail[1..] == LastN(r, |later|);
    assert tail == [tail[0]] + tail[1..];
    assert id in KeysOf(tail) && id !in KeysOf(tail[1..]);
  }
}
