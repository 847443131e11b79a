/** The writer of map files. */
module MapFile {
  import opened MapFormat
  import opened Options

  lemma {:induction false} RecordAppended(w: Interned, rs: seq<Record>, r: Record)
    ensures AfterAll(w, rs + [r]) == After(AfterAll(w, rs), r)
    ensures AllBytes(w, rs + [r]) == AllBytes(w, rs) + Bytes(AfterAll(w, rs), r)
    decreases rs
  {
    if rs == [] {
      assert [r][1..] == [] && rs + [r] == [r];
    } else {
      assert (rs + [r])[1..] == rs[1..] + [r];
      RecordAppended(After(w, rs[0]), rs[1..], r);
    }
  }

  lemma {:induction false} OneStringAppended(rs: seq<Record>, r: Record, s: Str)
    requires Strings(r) == [s]
    ensures var w := AfterAll(NOTHING, rs);
            && AfterAll(NOTHING, rs + [r]) == Intern(w, s)
            && AllBytes(NOTHING, rs + [r]) == AllBytes(NOTHING, rs) + (StringBytes(w, s) + RecordBytes(Intern(w, s), r))
  {
    RecordAppended(NOTHING, rs, r);
    var w := AfterAll(NOTHING, rs);
    assert [s][1..] == [];
    assert InternAll(w, [s]) == Intern(w, s) && StringsBytes(w, [s]) == StringBytes(w, s);
  }

  lemma {:induction false} TwoStringsAppended(rs: seq<Record>, r: Record, s: Str, t: Str)
    requires Strings(r) == [s, t]
    ensures var w := AfterAll(NOTHING, rs);
            var w1 := Intern(w, s);
            && AfterAll(NOTHING, rs + [r]) == Intern(w1, t)
            && AllBytes(NOTHING, rs + [r]) == AllBytes(NOTHING, rs) + (StringBytes(w, s) + StringBytes(w1, t) + RecordBytes(Intern(w1, t), r))
  {
    RecordAppended(NOTHING, rs, r);
    var w := AfterAll(NOTHING, rs);
    var w1 := Intern(w, s);
    assert [s, t][1..] == [t] && [t][1..] == [];
    assert InternAll(w1, [t]) == Intern(w1, t) && StringsBytes(w1, [t]) == StringBytes(w1, t);
    assert InternAll(w, [s, t]) == Intern(w1, t);
    assert StringsBytes(w, [s, t]) == StringBytes(w, s) + StringBytes(w1, t);
  }

  lemma {:induction false} Grouped(a: seq<Byte>, b: seq<Byte>, c: seq<Byte>, d: seq<Byte>)
    ensures a + (b + c) + d == a + (b + (c + d))
  {
  }

  lemma {:induction false} Flattened(a: seq<Byte>, b: seq<Byte>, c: seq<Byte>, d: seq<Byte>, e: seq<Byte>, f: seq<Byte>)
    ensures a + b + c + d + e + f == a + (b + c + (d + e + f))
  {
  }

  class MapFile {
    var file: seq<Byte>
    var strings: map<Str, nat>
    var stringRefNext: nat
    ghost var written: seq<Record>

    ghost function State(): Interned
      reads this
    {
      Interned(strings, stringRefNext)
    }

    /** The file holds what the records written so far amount to. */
    ghost predicate Valid()
      reads this
    {
      State() == AfterAll(NOTHING, written) && file == AllBytes(NOTHING, written)
    }

    /** The file as it is now parses back to the records written so far, exactly when no string has a NUL. */
    lemma {:induction false} ParsesBack(far: Far)
      requires Valid() && stringRefNext <= INT_LIMIT
      ensures Parse(far, file, []) == Outcome(written, None) <==> forall r :: r in written ==> Representable(r)
    {
      RoundTripIff(far, written);
    }

    constructor (moduleName: Str)
      ensures Valid() && written == [ModuleName(moduleName)]
    {
      file, strings, stringRefNext, written := [], map[], 0, [];
      new;
      WriteModuleName(moduleName);
      assert [] + [ModuleName(moduleName)] == [ModuleName(moduleName)];
    }

    method GetStringRef(s: Str) returns (ref: nat)
      modifies this
      ensures file == old(file) + StringBytes(old(State()), s) && written == old(written)
      ensures State() == Intern(old(State()), s) && ref == Ref(old(State()), s)
    {
      if s in strings {
        return strings[s];
      }
      file := file + [STRING];
      file := file + s + [0];
      strings := strings[s := stringRefNext];
      ref := stringRefNext;
      stringRefNext := stringRefNext + 1;
    }

    method WriteInt(value: nat)
      modifies `file
      ensures file == old(file) + EncodeInt(value)
    {
      var rest := value;
      var b: Byte := rest % 128;
      rest := rest / 128;
      while rest != 0
        invariant file + (if rest == 0 then [b] else [b + 128] + EncodeInt(rest)) == old(file) + EncodeInt(value) && b < 128
        decreases rest
      {
        file := file + [b + 128];
        b := rest % 128;
        rest := rest / 128;
      }
      file := file + [b];
    }

    method WriteModuleName(name: Str)
      requires Valid()
      modifies this
      ensures Valid() && written == old(written) + [ModuleName(name)]
    {
      OneStringAppended(written, ModuleName(name), name);
      WriteNamed(MODULE_NAME, name);
      written := written + [ModuleName(name)];
    }

    /** A record that consists of its type and one string. */
    method WriteNamed(kind: Byte, name: Str)
      modifies this
      ensures var w := Intern(old(State()), name);
              State() == w && file == old(file) + (StringBytes(old(State()), name) + ([kind] + EncodeInt(Ref(w, name))))
      ensures written == old(written)
    {
      var stringRef := GetStringRef(name);
      file := file + [kind];
      WriteInt(stringRef);
    }

    method WriteBasicBlock()
      requires Valid()
      modifies this
      ensures Valid() && written == old(written) + [BasicBlock]
    {
      RecordAppended(NOTHING, written, BasicBlock);
      file := file + [BASIC_BLOCK];
      written := written + [BasicBlock];
    }

    method WriteInstruction()
      requires Valid()
      modifies this
      ensures Valid() && written == old(written) + [Instruction]
    {
      RecordAppended(NOTHING, written, Instruction);
      file := file + [INSTRUCTION];
      written := written + [Instruction];
    }

    method WriteDInstruction(path: Str, line: Word)
      requires Valid()
      modifies this
      ensures Valid() && written == old(written) + [DInstruction(path, line)]
    {
      OneStringAppended(written, DInstruction(path, line), path);
      ghost var w := State();
      WriteNamed(DINSTRUCTION, path);
      WriteInt(line);
      Grouped(old(file), StringBytes(w, path), [DINSTRUCTION] + EncodeInt(Ref(Intern(w, path), path)), EncodeInt(line));
      written := written + [DInstruction(path, line)];
    }

    method WriteFaultCandidate(name: Str)
      requires Valid()
      modifies this
      ensures Valid() && written == old(written) + [FaultCandidate(name)]
    {
      OneStringAppended(written, FaultCandidate(name), name);
      WriteNamed(FAULT_CANDIDATE, name);
      written := written + [FaultCandidate(name)];
    }

    method WriteFaultInjected(name: Str)
      requires Valid()
      modifies this
      ensures Valid() && written == old(written) + [FaultInjected(name)]
    {
      OneStringAppended(written, FaultInjected(name), name);
      WriteNamed(FAULT_INJECTED, name);
      written := written + [FaultInjected(name)];
    }

    /** A record that consists of its type and two strings. */
    method WritePair(kind: Byte, s: Str, t: Str)
      modifies this
      ensures var w := old(State());
              var w1 := Intern(w, s);
              var w2 := Intern(w1, t);
              State() == w2 &&
              file == old(file) + (StringBytes(w, s) + StringBytes(w1, t) + ([kind] + EncodeInt(Ref(w2, s)) + EncodeInt(Ref(w2, t))))
      ensures written == old(written)
    {
      ghost var w := State();
      ghost var w1 := Intern(w, s);
      var refS := GetStringRef(s);
      var refT := GetStringRef(t);
      file := file + [kind];
      WriteInt(refS);
      WriteInt(refT);
      Flattened(old(file), StringBytes(w, s), StringBytes(w1, t), [kind], EncodeInt(refS), EncodeInt(refT));
    }

    method WriteFunction(name: Str, relPath: Str)
      requires Valid()
      modifies this
      ensures Valid() && written == old(written) + [FunctionStart(name, relPath)]
    {
      TwoStringsAppended(written, FunctionStart(name, relPath), name, relPath);
      WritePair(FUNCTION, name, relPath);
      written := written + [FunctionStart(name, relPath)];
    }
  }
}
