/** Internal keys: a user key followed by eight bytes of sequence number and type (db/dbformat.h, db/dbformat.cc). */
module InternalKeys {
  import opened Coding
  import opened ByteOrder

  const MAX_TAG: nat := 0xff_ffff_ffff_ffff * 256 + 1

  function User(key: seq<byte>): seq<byte>
    requires |key| >= 8
  {
    key[..|key| - 8]
  }

  /** The packed sequence number and type. */
  function TagOf(key: seq<byte>): nat
    requires |key| >= 8
  {
    DecodeFixed(key[|key| - 8..])
  }

  function MakeKey(user: seq<byte>, tag: nat): (key: seq<byte>)
    ensures |key| == |user| + 8
  {
    user + Fixed(tag, 8)
  }

  lemma MakeKeyParts(user: seq<byte>, tag: nat)
    requires tag < U64
    ensures User(MakeKey(user, tag)) == user && TagOf(MakeKey(user, tag)) == tag
  {
    Fixed64RoundTrip(tag);
    assert MakeKey(user, tag)[|user|..] == Fixed(tag, 8);
  }

  /** Ascending user keys; for one user key, descending tags. */
  predicate KeyLess(a: seq<byte>, b: seq<byte>) {
    && |a| >= 8 && |b| >= 8
    && (LexLess(User(a), User(b)) || (User(a) == User(b) && TagOf(a) > TagOf(b)))
  }

  lemma KeyLessTransitive(a: seq<byte>, b: seq<byte>, c: seq<byte>)
    requires KeyLess(a, b) && KeyLess(b, c)
    ensures KeyLess(a, c)
  {
    if LexLess(User(a), User(b)) && LexLess(User(b), User(c)) {
      LexTransitive(User(a), User(b), User(c));
    }
  }

  /** A key at or after start and before limit: start itself, or a shorter one whose user key lies strictly between
      theirs. */
  method FindShortestSeparator(start: seq<byte>, limit: seq<byte>) returns (r: seq<byte>)
    requires |start| >= 8 && |limit| >= 8
    ensures |r| >= 8 && (r == start || (LexLess(User(start), User(r)) && LexLess(User(r), User(limit))))
    ensures r != start <==> exists n: nat :: FirstDifference(User(start), User(limit), n) && n + 1 < |start| - 8
                                             && start[n] as int + 1 < limit[n] as int
    ensures r != start ==> |r| < |start| && TagOf(r) == MAX_TAG
  {
    r := start;
    var tmp := ByteOrder.FindShortestSeparator(User(start), User(limit));
    if |tmp| < |User(start)| && LexLess(User(start), tmp) {
      MakeKeyParts(tmp, MAX_TAG);
      r := MakeKey(tmp, MAX_TAG);
    }
  }

  /** A key at or after the given one: itself, or a shorter one with a larger user key. */
  method FindShortSuccessor(key: seq<byte>) returns (r: seq<byte>)
    requires |key| >= 8
    ensures |r| >= 8 && (r == key || LexLess(User(key), User(r)))
    ensures r != key <==> exists i: nat :: FirstRoom(User(key), i) && i + 1 < |key| - 8
    ensures r != key ==> |r| < |key| && TagOf(r) == MAX_TAG
  {
    r := key;
    var tmp := ByteOrder.FindShortSuccessor(User(key));
    if |tmp| < |User(key)| && LexLess(User(key), tmp) {
      MakeKeyParts(tmp, MAX_TAG);
      r := MakeKey(tmp, MAX_TAG);
    }
  }
}
