/** The bytewise comparator of util/comparator.cc. */
module ByteOrder {
  import opened Coding

  predicate LexLess(a: seq<byte>, b: seq<byte>) {
    if b == [] then false
    else if a == [] then true
    else if a[0] != b[0] then a[0] < b[0]
    else LexLess(a[1..], b[1..])
  }

  lemma {:induction false} LexTotal(a: seq<byte>, b: seq<byte>)
    ensures !(LexLess(a, b) && LexLess(b, a))
    ensures !LexLess(a, b) && !LexLess(b, a) <==> a == b
  {
    if a != [] && b != [] && a[0] == b[0] {
      LexTotal(a[1..], b[1..]);
      assert a == [a[0]] + a[1..] && b == [b[0]] + b[1..];
    }
  }

  lemma {:induction false} LexTransitive(a: seq<byte>, b: seq<byte>, c: seq<byte>)
    requires LexLess(a, b) && LexLess(b, c)
    ensures LexLess(a, c)
  {
    if a != [] && a[0] == b[0] == c[0] {
      LexTransitive(a[1..], b[1..], c[1..]);
    }
  }

  /** The first byte that differs decides. */
  lemma {:induction false} DiffersAt(a: seq<byte>, b: seq<byte>, n: nat)
    requires n < |a| && n < |b| && a[..n] == b[..n] && a[n] != b[n]
    ensures LexLess(a, b) <==> a[n] < b[n]
  {
    if n > 0 {
      assert a[0] == a[..n][0] == b[..n][0] == b[0];
      assert a[1..][..n - 1] == a[..n][1..] == b[..n][1..] == b[1..][..n - 1];
      DiffersAt(a[1..], b[1..], n - 1);
    }
  }

  /** Byte strings enter the model of the levels as ranks: any finite set of them embeds in the integers, order and
      all. */
  lemma RankEmbeds(keys: set<seq<byte>>, a: seq<byte>, b: seq<byte>)
    requires a in keys && b in keys
    ensures LexLess(a, b) <==> Rank(keys, a) < Rank(keys, b)
    ensures a == b <==> Rank(keys, a) == Rank(keys, b)
  {
    LexTotal(a, b);
    if LexLess(a, b) {
      RankGrows(keys, a, b);
    } else if LexLess(b, a) {
      RankGrows(keys, b, a);
    }
  }

  ghost function Rank(keys: set<seq<byte>>, a: seq<byte>): nat {
    |set x | x in keys && LexLess(x, a)|
  }

  lemma RankGrows(keys: set<seq<byte>>, a: seq<byte>, b: seq<byte>)
    requires a in keys && LexLess(a, b)
    ensures Rank(keys, a) < Rank(keys, b)
  {
    var below, above := set x | x in keys && LexLess(x, a), set x | x in keys && LexLess(x, b);
    forall x | x in below ensures x in above {
      LexTransitive(x, a, b);
    }
    LexTotal(a, a);
    assert a in above && a !in below;
    SmallerSet(below, above);
  }

  lemma SmallerSet(s: set<seq<byte>>, t: set<seq<byte>>)
    requires s < t
    ensures |s| < |t|
  {
    var rest := t - s;
    assert t == s + rest && s !! rest;
    assert rest != {};
  }

  /** Byte n is where a and b first differ. */
  ghost predicate FirstDifference(a: seq<byte>, b: seq<byte>, n: nat) {
    n < |a| && n < |b| && a[..n] == b[..n] && a[n] != b[n]
  }

  /** A string at or after start and before limit, no longer than start; it is start itself exactly when the first
      byte that differs has no value strictly between the two. */
  method FindShortestSeparator(start: seq<byte>, limit: seq<byte>) returns (r: seq<byte>)
    ensures |r| <= |start|
    ensures r == start || (LexLess(start, r) && LexLess(r, limit))
    ensures r != start <==> exists n: nat :: FirstDifference(start, limit, n) && start[n] as int + 1 < limit[n] as int
    ensures forall n: nat :: FirstDifference(start, limit, n) && start[n] as int + 1 < limit[n] as int ==>
            r == start[..n] + [start[n] + 1]
  {
    var min := if |start| < |limit| then |start| else |limit|;
    var diff := 0;
    while diff < min && start[diff] == limit[diff]
      invariant diff <= min && start[..diff] == limit[..diff]
    {
      assert start[..diff + 1] == start[..diff] + [start[diff]] && limit[..diff + 1] == limit[..diff] + [limit[diff]];
      diff := diff + 1;
    }
    r := start;
    assert forall n: nat :: FirstDifference(start, limit, n) ==> n == diff < min by {
      forall n: nat | FirstDifference(start, limit, n) ensures n == diff < min {
        OneDifference(start, limit, n, diff);
      }
    }
    if diff < min {
      var b := start[diff];
      assert FirstDifference(start, limit, diff);
      if b < 0xff && b + 1 < limit[diff] {
        r := start[..diff] + [b + 1];
        assert r[..diff] == start[..diff] && r[diff] != start[diff];
        DiffersAt(start, r, diff);
        DiffersAt(r, limit, diff);
      }
    }
  }

  lemma OneDifference(a: seq<byte>, b: seq<byte>, n: nat, m: nat)
    requires FirstDifference(a, b, n)
    requires m <= |a| && m <= |b| && a[..m] == b[..m] && (m < |a| && m < |b| ==> a[m] != b[m])
    ensures n == m
  {
    assert forall j :: 0 <= j < m ==> a[..m][j] == a[j] && b[..m][j] == b[j];
    assert forall j :: 0 <= j < n ==> a[..n][j] == a[j] && b[..n][j] == b[j];
  }

  /** The first byte of key that is not 0xff. */
  ghost predicate FirstRoom(key: seq<byte>, i: nat) {
    i < |key| && key[i] != 0xff && forall j :: 0 <= j < i ==> key[j] == 0xff
  }

  /** A string at or after key, no longer than it: cut behind the first byte that can grow, and that byte grown. Only a
      run of 0xff bytes has no such string. */
  method FindShortSuccessor(key: seq<byte>) returns (r: seq<byte>)
    ensures |r| <= |key| && (r == key || LexLess(key, r))
    ensures r != key <==> exists i: nat :: FirstRoom(key, i)
    ensures forall i: nat :: FirstRoom(key, i) ==> r == key[..i] + [key[i] + 1]
  {
    var i := 0;
    while i < |key|
      invariant i <= |key| && forall j :: 0 <= j < i ==> key[j] == 0xff
    {
      var b := key[i];
      if b != 0xff {
        r := key[..i] + [b + 1];
        assert r[..i] == key[..i] && r[i] != key[i];
        DiffersAt(key, r, i);
        assert FirstRoom(key, i);
        return;
      }
      i := i + 1;
    }
    r := key;
  }
}
