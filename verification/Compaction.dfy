/** One compaction: the base-level test and the merge loop that drops entries
    (Compaction in db/version_set.cc, DBImpl::DoCompactionWork in db/db_impl.cc). */
module Compactions {
  import opened Format
  import opened Visibility
  import opened Version

  /** No file deeper than the output level can hold u: the full scan. */
  ghost predicate IsBaseLevel(v: Levels, level: nat, u: UserKey) {
    forall l, f :: level + 2 <= l < NUM_LEVELS && f in v[l] ==> !Contains(f, u)
  }

  ghost function BaseKeys(v: Levels, level: nat): iset<UserKey> {
    iset u | IsBaseLevel(v, level, u)
  }

  class Compaction {
    const level: nat
    const inputVersion: Levels
    const levelPtrs: array<nat>
    /** The last key asked about; keys arrive in ascending order. */
    ghost var asked: Option<UserKey>

    ghost predicate Valid()
      reads this, levelPtrs
    {
      && levelPtrs.Length == NUM_LEVELS
      && (forall l :: 1 <= l < NUM_LEVELS ==> DisjointSorted(inputVersion[l]))
      && (forall l :: 0 <= l < NUM_LEVELS ==> levelPtrs[l] <= |inputVersion[l]|)
      && (forall l, i :: 0 <= l < NUM_LEVELS && 0 <= i < levelPtrs[l] ==>
            asked.Some? && Largest(inputVersion[l][i]).user < asked.value)
    }

    constructor (level: nat, v: Levels)
      requires forall l :: 1 <= l < NUM_LEVELS ==> DisjointSorted(v[l])
      ensures Valid() && fresh(this) && fresh(levelPtrs)
      ensures this.level == level && inputVersion == v && asked == None
    {
      this.level, inputVersion, asked := level, v, None;
      levelPtrs := new nat[NUM_LEVELS](_ => 0);
    }

    /** Advances the pointer of one level past every file ending before u. */
    method AdvancePointer(lvl: nat, u: UserKey) returns (inFile: bool)
      requires Valid() && 1 <= lvl < NUM_LEVELS && asked == Some(u)
      modifies levelPtrs
      ensures Valid()
      ensures inFile <==> exists f :: f in inputVersion[lvl] && Contains(f, u)
    {
      var files := inputVersion[lvl];
      while levelPtrs[lvl] < |files|
        invariant Valid()
        decreases |files| - levelPtrs[lvl]
      {
        var f := files[levelPtrs[lvl]];
        if u <= Largest(f).user {
          if u >= Smallest(f).user {
            assert f in files && Contains(f, u);
            return true;
          }
          break;
        }
        levelPtrs[lvl] := levelPtrs[lvl] + 1;
      }
      inFile := false;
    }

    /** The monotone level pointers answer exactly what a full scan of the deeper levels would. */
    method IsBaseLevelForKey(u: UserKey) returns (base: bool)
      requires Valid() && (asked.Some? ==> asked.value <= u)
      modifies this`asked, levelPtrs
      ensures Valid() && asked == Some(u)
      ensures base <==> IsBaseLevel(inputVersion, level, u)
    {
      asked := Some(u);
      for lvl := level + 2 to if level + 2 < NUM_LEVELS then NUM_LEVELS else level + 2
        invariant Valid()
        invariant asked == Some(u)
        invariant forall l, f :: level + 2 <= l < lvl && l < NUM_LEVELS && f in inputVersion[l] ==> !Contains(f, u)
      {
        var inFile := AdvancePointer(lvl, u);
        if inFile {
          return false;
        }
      }
      base := true;
    }
  }

  ghost function Flatten(files: seq<Table>): seq<Entry> {
    if files == [] then [] else Flatten(files[..|files| - 1]) + files[|files| - 1].entries
  }

  lemma {:induction false} FlattenMembers(files: seq<Table>)
    ensures forall e :: e in Flatten(files) <==> exists f :: f in files && e in f.entries
  {
    if files != [] {
      var rest, f := files[..|files| - 1], files[|files| - 1];
      FlattenMembers(rest);
      assert files == rest + [f];
    }
  }

  /** Tables cut from one sorted run are disjoint and in order. */
  lemma {:induction false} FlattenDisjoint(files: seq<Table>)
    requires Sorted(Flatten(files))
    ensures DisjointSorted(files)
  {
    if files != [] {
      var rest, f := files[..|files| - 1], files[|files| - 1];
      assert Flatten(files) == Flatten(rest) + f.entries;
      forall i, j | 0 <= i < j < |Flatten(rest)| ensures Before(Flatten(rest)[i], Flatten(rest)[j]) {
        assert Flatten(rest)[i] == Flatten(files)[i] && Flatten(rest)[j] == Flatten(files)[j];
      }
      FlattenDisjoint(rest);
      FlattenMembers(rest);
      forall i | 0 <= i < |rest| ensures Before(Largest(rest[i]), Smallest(f)) {
        assert rest[i] in rest && Largest(rest[i]) in rest[i].entries;
        assert Largest(rest[i]) in Flatten(rest);
        var k :| 0 <= k < |Flatten(rest)| && Flatten(rest)[k] == Largest(rest[i]);
        assert Flatten(files)[k] == Largest(rest[i]) && Flatten(files)[|Flatten(rest)|] == Smallest(f);
      }
    }
  }

  /** In a sorted run, the entry just before tells whether anything hides the next one. */
  lemma HiddenByPredecessor(input: seq<Entry>, i: nat, snap: nat)
    requires Sorted(input) && UniqueSeqs(Elements(input)) && i < |input|
    ensures Hidden(Elements(input), input[i], snap) <==>
              i > 0 && input[i - 1].user == input[i].user && input[i - 1].sn <= snap
  {
    var e := input[i];
    if i > 0 && input[i - 1].user == e.user && input[i - 1].sn <= snap {
      assert input[i - 1] in Elements(input) && Before(input[i - 1], e);
      assert input[i - 1].sn != e.sn;
    }
    if h :| h in Elements(input) && h.user == e.user && e.sn < h.sn <= snap {
      var j :| 0 <= j < |input| && input[j] == h;
      assert j < i;
      assert j < i - 1 ==> Before(input[j], input[i - 1]) && Before(input[i - 1], input[i]);
    }
  }

  /** `written` is the sorted run of the survivors among the first i entries of the input. */
  ghost predicate WrittenSoFar(written: seq<Entry>, input: seq<Entry>, i: nat, snap: nat, base: iset<UserKey>) {
    && i <= |input| && Sorted(written)
    && forall e :: e in written <==> e in input[..i] && Survives(Elements(input), e, snap, base)
  }

  lemma WriteNext(written: seq<Entry>, input: seq<Entry>, i: nat, snap: nat, base: iset<UserKey>)
    requires WrittenSoFar(written, input, i, snap, base) && i < |input| && Sorted(input)
    ensures WrittenSoFar(if Survives(Elements(input), input[i], snap, base) then written + [input[i]] else written,
                         input, i + 1, snap, base)
  {
    assert input[..i + 1] == input[..i] + [input[i]];
    assert forall x :: x in written ==> Before(x, input[i]);
  }

  lemma NothingWritten(input: seq<Entry>, snap: nat, base: iset<UserKey>)
    ensures WrittenSoFar(Flatten([]) + [], input, 0, snap, base)
  {
  }

  lemma AllWritten(outputs: seq<Table>, input: seq<Entry>, snap: nat, base: iset<UserKey>)
    requires WrittenSoFar(Flatten(outputs) + [], input, |input|, snap, base)
    ensures Sorted(Flatten(outputs))
    ensures forall e :: e in Flatten(outputs) <==> e in input && Survives(Elements(input), e, snap, base)
  {
    assert Flatten(outputs) + [] == Flatten(outputs) && input[..|input|] == input;
  }

  /** The two drop rules, applied to the entry after `lastSequenceForKey` of the same user key. */
  method ShouldDrop(c: Compaction, input: seq<Entry>, i: nat, snap: nat, lastSequenceForKey: nat) returns (drop: bool)
    requires c.Valid() && i < |input| && (c.asked.Some? ==> c.asked.value <= input[i].user)
    requires Sorted(input) && UniqueSeqs(Elements(input)) && snap < MAX_SEQUENCE
    requires lastSequenceForKey == if i > 0 && input[i - 1].user == input[i].user then input[i - 1].sn else MAX_SEQUENCE
    modifies c`asked, c.levelPtrs
    ensures c.Valid() && (c.asked.Some? ==> c.asked.value <= input[i].user)
    ensures drop <==> !Survives(Elements(input), input[i], snap, BaseKeys(c.inputVersion, c.level))
  {
    drop := false;
    HiddenByPredecessor(input, i, snap);
    if lastSequenceForKey <= snap {
      drop := true;
    } else if input[i].kind.Deletion? && input[i].sn <= snap {
      drop := c.IsBaseLevelForKey(input[i].user);
    }
  }

  ghost predicate Numbered(outputs: seq<Table>, numbers: seq<nat>) {
    |outputs| <= |numbers| && forall i :: 0 <= i < |outputs| ==> outputs[i].number == numbers[i]
  }

  /** The merge loop.  `stopBefore` and `full` stand for ShouldStopBefore and the size test, which only
      decide where outputs are cut; `numbers` supplies the file numbers that NewFileNumber hands out. */
  method DoCompactionWork(c: Compaction, input: seq<Entry>, snap: nat,
                          stopBefore: seq<bool>, full: seq<bool>, numbers: seq<nat>, sizeOf: seq<Entry> -> nat)
      returns (outputs: seq<Table>)
    requires c.Valid() && c.asked == None
    requires Sorted(input) && UniqueSeqs(Elements(input)) && (forall e :: e in input ==> e.sn < MAX_SEQUENCE)
    requires snap < MAX_SEQUENCE
    requires |stopBefore| == |full| == |input| <= |numbers|
    modifies c`asked, c.levelPtrs
    ensures Sorted(Flatten(outputs))
    ensures forall e :: e in Flatten(outputs) <==>
              e in input && Survives(Elements(input), e, snap, BaseKeys(c.inputVersion, c.level))
    ensures Numbered(outputs, numbers)
  {
    hide WrittenSoFar, Survives, UniqueSeqs, Flatten;
    outputs := [];
    ghost var base := BaseKeys(c.inputVersion, c.level);
    NothingWritten(input, snap, base);
    var builder: seq<Entry> := [];      // the open output file; empty when there is none
    var currentUserKey: Option<UserKey> := None;
    var lastSequenceForKey := MAX_SEQUENCE;
    for i := 0 to |input|
      invariant c.Valid() && (c.asked.Some? ==> i > 0 && c.asked.value <= input[i - 1].user)
      invariant if i == 0 then currentUserKey == None
                else currentUserKey == Some(input[i - 1].user) && lastSequenceForKey == input[i - 1].sn
      invariant |outputs| + (if builder == [] then 0 else 1) <= i
      invariant Numbered(outputs, numbers)
      invariant WrittenSoFar(Flatten(outputs) + builder, input, i, snap, base)
    {
      var e := input[i];
      if stopBefore[i] && builder != [] {
        outputs := FinishOutput(outputs, builder, numbers, sizeOf, input, i, snap, base);
        builder := [];
      }
      if currentUserKey != Some(e.user) {
        currentUserKey, lastSequenceForKey := Some(e.user), MAX_SEQUENCE;
      }
      var drop := ShouldDrop(c, input, i, snap, lastSequenceForKey);
      lastSequenceForKey := e.sn;
      WriteNext(Flatten(outputs) + builder, input, i, snap, base);
      if !drop {
        outputs, builder := EmitEntry(outputs, builder, e, full[i], numbers, sizeOf, input, i, snap, base);
      }
    }
    if builder != [] {
      outputs := FinishOutput(outputs, builder, numbers, sizeOf, input, |input|, snap, base);
    }
    AllWritten(outputs, input, snap, base);
  }

  /** Appends an entry to the open output file and closes the file if it is full. */
  method EmitEntry(outputs: seq<Table>, builder: seq<Entry>, e: Entry, isFull: bool, numbers: seq<nat>,
                   sizeOf: seq<Entry> -> nat,
                   ghost input: seq<Entry>, ghost i: nat, ghost snap: nat, ghost base: iset<UserKey>)
      returns (outputs': seq<Table>, builder': seq<Entry>)
    requires Numbered(outputs, numbers) && |outputs| < |numbers|
    requires WrittenSoFar(Flatten(outputs) + builder + [e], input, i + 1, snap, base)
    requires forall x :: x in input ==> x.sn < MAX_SEQUENCE
    ensures Numbered(outputs', numbers)
    ensures |outputs'| + (if builder' == [] then 0 else 1) == |outputs| + 1
    ensures builder' == if isFull then [] else builder + [e]
    ensures WrittenSoFar(Flatten(outputs') + builder', input, i + 1, snap, base)
  {
    assert Flatten(outputs) + (builder + [e]) == Flatten(outputs) + builder + [e];
    outputs', builder' := outputs, builder + [e];
    if isFull {
      outputs' := FinishOutput(outputs', builder', numbers, sizeOf, input, i + 1, snap, base);
      builder' := [];
    }
  }

  /** Closes the open output file. */
  method FinishOutput(outputs: seq<Table>, builder: seq<Entry>, numbers: seq<nat>, sizeOf: seq<Entry> -> nat,
                      ghost input: seq<Entry>, ghost i: nat, ghost snap: nat, ghost base: iset<UserKey>)
      returns (outputs': seq<Table>)
    requires builder != [] && |outputs| < |numbers| && Numbered(outputs, numbers)
    requires WrittenSoFar(Flatten(outputs) + builder, input, i, snap, base)
    requires forall e :: e in input ==> e.sn < MAX_SEQUENCE
    ensures |outputs'| == |outputs| + 1 && Numbered(outputs', numbers)
    ensures Flatten(outputs') == Flatten(outputs) + builder
    ensures WrittenSoFar(Flatten(outputs') + [], input, i, snap, base)
  {
    ghost var n, all := |Flatten(outputs)|, Flatten(outputs) + builder;
    assert Sorted(builder) by {
      forall i, j | 0 <= i < j < |builder| ensures Before(builder[i], builder[j]) {
        assert builder[i] == all[n + i] && builder[j] == all[n + j];
      }
    }
    assert forall e :: e in builder ==> e in all;
    var f: Table := TableFile(numbers[|outputs|], sizeOf(builder), builder);
    outputs' := outputs + [f];
    assert Flatten(outputs') + [] == all;
  }
}
