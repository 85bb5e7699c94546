/** The chained hash table of util/cache.cc.  Its lengths are powers of two, so `hash & (length - 1)` is written as a
    remainder.  A chain is the list of its slots; a slot carries the key and hash of the handle it points to. */
module HandleTables {
  import opened Format
  import opened Coding

  /** What FindPointer compares: the key and its hash. */
  datatype Name = Name(key: seq<byte>, hash: nat)

  datatype Slot = Slot(name: Name, id: nat)

  function Bucket(name: Name, length: nat): (b: nat)
    requires length >= 1
    ensures b < length && exists q: nat :: name.hash == Place(q, length, b)
  {
    assert name.hash == Place(name.hash / length, length, name.hash % length);
    name.hash % length
  }

  /** The q-th hash value that falls into bucket b. */
  function Place(q: nat, length: nat, b: nat): nat { q * length + b }

  predicate IsPowerOfTwo(n: nat) {
    if n <= 1 then n == 1 else n % 2 == 0 && IsPowerOfTwo(n / 2)
  }

  ghost predicate Distinct(chain: seq<Slot>) {
    forall i, j :: 0 <= i < j < |chain| ==> chain[i].name != chain[j].name
  }

  ghost predicate ChainOk(chain: seq<Slot>, contents: map<Name, nat>, length: nat, b: nat)
    requires length >= 1
  {
    && Distinct(chain)
    && (forall s :: s in chain ==> Bucket(s.name, length) == b && s.name in contents && contents[s.name] == s.id)
    && (forall n :: n in contents && Bucket(n, length) == b ==> Slot(n, contents[n]) in chain)
  }

  /** Every entry sits in the one chain that a lookup would search, once. */
  ghost predicate Holds(list: seq<seq<Slot>>, contents: map<Name, nat>) {
    |list| >= 1 && forall b :: 0 <= b < |list| ==> ChainOk(list[b], contents, |list|, b)
  }

  /** Other chains do not notice. */
  lemma OtherChain(chain: seq<Slot>, contents: map<Name, nat>, contents': map<Name, nat>, length: nat, b: nat,
                   name: Name)
    requires length >= 1 && ChainOk(chain, contents, length, b) && Bucket(name, length) != b
    requires forall n :: n != name ==>
             (n in contents' <==> n in contents) && (n in contents ==> contents'[n] == contents[n])
    ensures ChainOk(chain, contents', length, b)
  {
  }

  lemma ReplaceInChain(chain: seq<Slot>, contents: map<Name, nat>, length: nat, b: nat, i: nat, id: nat)
    requires length >= 1 && ChainOk(chain, contents, length, b) && i < |chain|
    ensures ChainOk(chain[i := Slot(chain[i].name, id)], contents[chain[i].name := id], length, b)
  {
    var name, s := chain[i].name, Slot(chain[i].name, id);
    var chain' := chain[i := s];
    assert chain'[i] == s;
    forall n | n in contents && n != name && Bucket(n, length) == b ensures Slot(n, contents[n]) in chain' {
      var j :| 0 <= j < |chain| && chain[j] == Slot(n, contents[n]);
      assert chain'[j] == chain[j];
    }
  }

  lemma AppendToChain(chain: seq<Slot>, contents: map<Name, nat>, length: nat, b: nat, s: Slot)
    requires length >= 1 && ChainOk(chain, contents, length, b) && s.name !in contents && Bucket(s.name, length) == b
    ensures ChainOk(chain + [s], contents[s.name := s.id], length, b)
  {
    var chain' := chain + [s];
    assert chain'[|chain|] == s;
    forall n | n in contents && Bucket(n, length) == b ensures Slot(n, contents[n]) in chain' {
      var j :| 0 <= j < |chain| && chain[j] == Slot(n, contents[n]);
      assert chain'[j] == chain[j];
    }
    forall i | 0 <= i < |chain| ensures chain[i].name != s.name {
      assert chain[i] in chain;
    }
  }

  lemma PrependToChain(chain: seq<Slot>, contents: map<Name, nat>, length: nat, b: nat, s: Slot)
    requires length >= 1 && ChainOk(chain, contents, length, b) && s.name !in contents && Bucket(s.name, length) == b
    ensures ChainOk([s] + chain, contents[s.name := s.id], length, b)
  {
    var chain' := [s] + chain;
    assert chain'[0] == s;
    forall n | n in contents && Bucket(n, length) == b ensures Slot(n, contents[n]) in chain' {
      var j :| 0 <= j < |chain| && chain[j] == Slot(n, contents[n]);
      assert chain'[j + 1] == chain[j];
    }
    forall i | 0 <= i < |chain| ensures chain[i].name != s.name {
      assert chain[i] in chain;
    }
  }

  /** Dropping one slot of a chain drops that slot only. */
  lemma DropSlot(chain: seq<Slot>, i: nat)
    requires Distinct(chain) && i < |chain|
    ensures var chain' := chain[..i] + chain[i + 1..];
            Distinct(chain') && forall s :: s in chain' <==> s in chain && s.name != chain[i].name
  {
    var chain' := chain[..i] + chain[i + 1..];
    assert forall j :: 0 <= j < |chain'| ==> chain'[j] == chain[if j < i then j else j + 1];
    forall s | s in chain && s.name != chain[i].name ensures s in chain' {
      var j :| 0 <= j < |chain| && chain[j] == s;
      assert chain'[if j < i then j else j - 1] == s;
    }
  }

  lemma RemoveFromChain(chain: seq<Slot>, contents: map<Name, nat>, length: nat, b: nat, i: nat)
    requires length >= 1 && ChainOk(chain, contents, length, b) && i < |chain|
    ensures ChainOk(chain[..i] + chain[i + 1..], contents - {chain[i].name}, length, b)
  {
    hide Distinct, Bucket;
    DropSlot(chain, i);
  }

  class HandleTable {
    var length: nat
    var elems: nat
    var list: seq<seq<Slot>>
    ghost var contents: map<Name, nat>

    ghost predicate Valid()
      reads this
    {
      && |list| == length && length >= 4 && IsPowerOfTwo(length)
      && Holds(list, contents) && elems == |contents| <= length
    }

    constructor ()
      ensures Valid() && contents == map[]
    {
      length, elems, list, contents := 4, 0, [[], [], [], []], map[];
    }

    /** The bucket of a name, and the position of its slot in the chain, or the end of the chain. */
    method FindPointer(name: Name) returns (b: nat, i: nat)
      requires Valid()
      ensures b == Bucket(name, length) && i <= |list[b]|
      ensures if i < |list[b]| then list[b][i].name == name && name in contents
              && contents[name] == list[b][i].id else name !in contents
    {
      b, i := Bucket(name, length), 0;
      assert ChainOk(list[b], contents, length, b);
      while i < |list[b]| && list[b][i].name != name
        invariant i <= |list[b]| && forall j :: 0 <= j < i ==> list[b][j].name != name
      {
        i := i + 1;
      }
      assert i < |list[b]| ==> list[b][i] in list[b];
    }

    method Lookup(name: Name) returns (r: Option<nat>)
      requires Valid()
      ensures r == if name in contents then Some(contents[name]) else None
    {
      var b, i := FindPointer(name);
      return if i < |list[b]| then Some(list[b][i].id) else None;
    }

    method Remove(name: Name) returns (r: Option<nat>)
      requires Valid()
      modifies this
      ensures Valid() && r == (if name in old(contents) then Some(old(contents)[name]) else None)
      ensures contents == old(contents) - {name}
    {
      hide IsPowerOfTwo, ChainOk;
      var b, i := FindPointer(name);
      if i == |list[b]| {
        assert contents - {name} == contents;
        return None;
      }
      r := Some(list[b][i].id);
      assert ChainOk(list[b], contents, length, b);
      RemoveFromChain(list[b], contents, length, b, i);
      ghost var contents' := contents - {name};
      forall c | 0 <= c < length && c != b ensures ChainOk(list[c], contents', length, c) {
        OtherChain(list[c], contents, contents', length, c, name);
      }
      list := list[b := list[b][..i] + list[b][i + 1..]];
      contents := contents';
      elems := elems - 1;
    }
  
    /** The entry that had the name before, if any, is replaced where it stands. */
    method Insert(s: Slot) returns (r: Option<nat>)
      requires Valid()
      modifies this
      ensures Valid() && r == (if s.name in old(contents) then Some(old(contents)[s.name]) else None)
      ensures contents == old(contents)[s.name := s.id]
    {
      hide IsPowerOfTwo, ChainOk, Bucket;
      var b, i := FindPointer(s.name);
      assert ChainOk(list[b], contents, length, b);
      ghost var contents' := contents[s.name := s.id];
      forall c | 0 <= c < length && c != b ensures ChainOk(list[c], contents', length, c) {
        OtherChain(list[c], contents, contents', length, c, s.name);
      }
      if i < |list[b]| {
        r := Some(list[b][i].id);
        ReplaceInChain(list[b], contents, length, b, i, s.id);
        list := list[b := list[b][i := s]];
        contents := contents';
      } else {
        r := None;
        AppendToChain(list[b], contents, length, b, s);
        list := list[b := list[b] + [s]];
        contents := contents';
        elems := elems + 1;
        if elems > length {
          Resize();
        }
      }
    }

    /** Double the table until there is a bucket for every element, and move every slot to the front of its new
        chain. */
    method Resize()
      requires |list| == length >= 1 && Holds(list, contents) && elems == |contents|
      modifies this
      ensures Valid() && contents == old(contents) && elems == old(elems)
    {
      hide ChainOk, Bucket;
      var newLength := 4;
      while newLength < elems
        modifies {}
        invariant newLength >= 4 && IsPowerOfTwo(newLength)
      {
        newLength := newLength * 2;
      }
      var newList: seq<seq<Slot>> := seq(newLength, _ => []);
      ghost var moved: map<Name, nat> := map[];
      NothingHeld(newLength);
      for i := 0 to length
        modifies {}
        invariant |newList| == newLength && Holds(newList, moved)
        invariant MovedUpTo(contents, moved, length, i)
      {
        var chain := list[i];
        assert ChainOk(chain, contents, length, i);
        for j := 0 to |chain|
          modifies {}
          invariant |newList| == newLength && Holds(newList, moved)
          invariant MovedInChain(contents, moved, length, i, chain[..j])
        {
          var s := chain[j];
          assert chain[..j + 1] == chain[..j] + [s];
          OneMoreMoved(contents, moved, length, i, chain, j);
          var b := Bucket(s.name, newLength);
          PrependHeld(newList, moved, s);
          newList := newList[b := [s] + newList[b]];
          moved := moved[s.name := s.id];
        }
        assert chain[..|chain|] == chain;
        FinishChain(contents, moved, length, i, chain);
      }
      AllMoved(contents, moved, length);
      list, length := newList, newLength;
    }
  }

  lemma NothingHeld(length: nat)
    requires length >= 1
    ensures Holds(seq(length, _ => []), map[])
  {
  }

  lemma PrependHeld(list: seq<seq<Slot>>, contents: map<Name, nat>, s: Slot)
    requires Holds(list, contents) && s.name !in contents
    ensures var b := Bucket(s.name, |list|);
            Holds(list[b := [s] + list[b]], contents[s.name := s.id])
  {
    hide ChainOk, Bucket;
    var b := Bucket(s.name, |list|);
    PrependToChain(list[b], contents, |list|, b, s);
    forall c | 0 <= c < |list| && c != b ensures ChainOk(list[c], contents[s.name := s.id], |list|, c) {
      OtherChain(list[c], contents, contents[s.name := s.id], |list|, c, s.name);
    }
  }

  // ----- which entries a resize has moved -----

  /** Those of the first i chains. */
  ghost predicate MovedUpTo(contents: map<Name, nat>, moved: map<Name, nat>, length: nat, i: nat)
    requires length >= 1
  {
    && (forall n :: n in moved <==> n in contents && Bucket(n, length) < i)
    && (forall n :: n in moved ==> n in contents && moved[n] == contents[n])
  }

  /** Those of the first i chains and of the given part of chain i. */
  ghost predicate MovedInChain(contents: map<Name, nat>, moved: map<Name, nat>, length: nat, i: nat, part: seq<Slot>)
    requires length >= 1
  {
    && (forall n :: n in moved <==>
       n in contents && (Bucket(n, length) < i || (Bucket(n, length) == i && Slot(n, contents[n]) in part)))
    && (forall n :: n in moved ==> n in contents && moved[n] == contents[n])
  }

  lemma OneMoreMoved(contents: map<Name, nat>, moved: map<Name, nat>, length: nat, i: nat, chain: seq<Slot>, j: nat)
    requires length >= 1 && j < |chain| && ChainOk(chain, contents, length, i)
             && MovedInChain(contents, moved, length, i, chain[..j])
    ensures chain[j].name !in moved
    ensures MovedInChain(contents, moved[chain[j].name := chain[j].id], length, i, chain[..j] + [chain[j]])
  {
    hide Bucket;
    assert chain[j] in chain;
  }

  lemma FinishChain(contents: map<Name, nat>, moved: map<Name, nat>, length: nat, i: nat, chain: seq<Slot>)
    requires length >= 1 && ChainOk(chain, contents, length, i) && MovedInChain(contents, moved, length, i, chain)
    ensures MovedUpTo(contents, moved, length, i + 1)
  {
    hide Bucket;
  }

  lemma AllMoved(contents: map<Name, nat>, moved: map<Name, nat>, length: nat)
    requires length >= 1 && MovedUpTo(contents, moved, length, length)
    ensures moved == contents
  {
  }
}
