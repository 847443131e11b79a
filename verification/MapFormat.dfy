/**
 The map file of the fault injector: what the writer emits, what the reader accepts, and
 that the reader recovers exactly what was written.
 */
module MapFormat {
  import opened Options

  type Byte = b: nat | b < 256

  type Str = seq<Byte>

  /** Line numbers and string references are 32 bits wide, in the writer and in the reader. */
  type Word = n: nat | n < 0x1_0000_0000

  datatype Record =
    | ModuleName(name: Str)
    | FunctionStart(name: Str, relPath: Str)
    | BasicBlock
    | Instruction
    | DInstruction(path: Str, line: Word)
    | FaultCandidate(name: Str)
    | FaultInjected(name: Str)

  const STRING: Byte := 1
  const FUNCTION: Byte := 2
  const BASIC_BLOCK: Byte := 3
  const INSTRUCTION: Byte := 4
  const DINSTRUCTION: Byte := 5
  const FAULT_CANDIDATE: Byte := 6
  const FAULT_INJECTED: Byte := 7
  const MODULE_NAME: Byte := 8

  /** The reader counts its strings in an `int`. */
  const INT_LIMIT := 0x8000_0000

  // ----- writing -----

  /** Unsigned LEB128: groups of seven bits, least significant first, all but the last with bit 7 set. */
  function EncodeInt(v: nat): seq<Byte> {
    if v < 128 then [v] else [128 + v % 128] + EncodeInt(v / 128)
  }

  /** The strings that were written, with their numbers, and the next number. */
  datatype Interned = Interned(refs: map<Str, nat>, next: nat)

  const NOTHING := Interned(map[], 0)

  /** What has to be written before a string can be referred to. */
  function StringBytes(w: Interned, s: Str): seq<Byte> {
    if s in w.refs then [] else [STRING] + s + [0]
  }

  function Intern(w: Interned, s: Str): Interned {
    if s in w.refs then w else Interned(w.refs[s := w.next], w.next + 1)
  }

  function Ref(w: Interned, s: Str): nat {
    if s in w.refs then w.refs[s] else w.next
  }

  /** The strings of a record, in the order in which the writer interns them. */
  function Strings(r: Record): seq<Str> {
    match r
    case ModuleName(name) => [name]
    case FunctionStart(name, relPath) => [name, relPath]
    case BasicBlock => []
    case Instruction => []
    case DInstruction(path, _) => [path]
    case FaultCandidate(name) => [name]
    case FaultInjected(name) => [name]
  }

  function InternAll(w: Interned, ss: seq<Str>): Interned
    decreases ss
  {
    if ss == [] then w else InternAll(Intern(w, ss[0]), ss[1..])
  }

  function StringsBytes(w: Interned, ss: seq<Str>): seq<Byte>
    decreases ss
  {
    if ss == [] then [] else StringBytes(w, ss[0]) + StringsBytes(Intern(w, ss[0]), ss[1..])
  }

  /** A record once its strings have been interned. */
  function RecordBytes(w: Interned, r: Record): seq<Byte> {
    match r
    case ModuleName(name) => [MODULE_NAME] + EncodeInt(Ref(w, name))
    case FunctionStart(name, relPath) => [FUNCTION] + EncodeInt(Ref(w, name)) + EncodeInt(Ref(w, relPath))
    case BasicBlock => [BASIC_BLOCK]
    case Instruction => [INSTRUCTION]
    case DInstruction(path, line) => [DINSTRUCTION] + EncodeInt(Ref(w, path)) + EncodeInt(line)
    case FaultCandidate(name) => [FAULT_CANDIDATE] + EncodeInt(Ref(w, name))
    case FaultInjected(name) => [FAULT_INJECTED] + EncodeInt(Ref(w, name))
  }

  function After(w: Interned, r: Record): Interned {
    InternAll(w, Strings(r))
  }

  function Bytes(w: Interned, r: Record): seq<Byte> {
    StringsBytes(w, Strings(r)) + RecordBytes(After(w, r), r)
  }

  function AfterAll(w: Interned, rs: seq<Record>): Interned
    decreases rs
  {
    if rs == [] then w else AfterAll(After(w, rs[0]), rs[1..])
  }

  /** What a writer that has interned `w` emits for a sequence of records. */
  function AllBytes(w: Interned, rs: seq<Record>): seq<Byte>
    decreases rs
  {
    if rs == [] then [] else Bytes(w, rs[0]) + AllBytes(After(w, rs[0]), rs[1..])
  }

  // ----- reading -----

  datatype Error = EndInString | EndInInt | NoSuchString | NoSuchType

  datatype Read<T> = Done(value: T, rest: seq<Byte>) | Failed(error: Error)

  /** What the reader gets when it joins a group of seven bits to a word, after the first five groups: the shift is by
      more than the width of an `int`, and C does not say what comes of it. */
  type Far = (Word, nat, nat) -> Word

  /** A group moved to its place. */
  function Shifted(k: nat, g: nat): nat {
    if k == 0 then g else if k == 1 then 0x80 * g else if k == 2 then 0x4000 * g else if k == 3 then 0x20_0000 * g else 0x1000_0000 * g
  }

  /** The low word after the group with number `k` was joined to it. An `int` has room for four bits of the fifth group,
      the top one in its sign; two's complement keeps them, and the others are lost when the word is stored. */
  function Join(far: Far, value: Word, k: nat, g: nat): Word
    requires g < 128 && (k <= 4 ==> value < Shifted(k, 1))
  {
    if k <= 3 then value + Shifted(k, g) else if k == 4 then value + Shifted(k, g % 16) else far(value, k, g)
  }

  /** Reads an integer of which `k` groups were read before, with the given value. */
  function ReadInt(far: Far, s: seq<Byte>, k: nat, value: Word): (r: Read<Word>)
    requires k <= 4 ==> value < Shifted(k, 1)
    ensures r.Done? ==> |r.rest| < |s|
    decreases |s|
  {
    if s == [] then Failed(EndInInt)
    else if s[0] < 128 then Done(Join(far, value, k, s[0]), s[1..])
    else ReadInt(far, s[1..], k + 1, Join(far, value, k, s[0] % 128))
  }

  function ReadString(s: seq<Byte>): (r: Read<Str>)
    ensures r.Done? ==> |r.rest| < |s|
    decreases |s|
  {
    if s == [] then Failed(EndInString)
    else if s[0] == 0 then Done([], s[1..])
    else
      var r := ReadString(s[1..]);
      if r.Failed? then r else Done([s[0]] + r.value, r.rest)
  }

  /** Reads a reference and looks it up. */
  function ReadRef(far: Far, s: seq<Byte>, strings: seq<Str>): (r: Read<Str>)
    ensures r.Done? ==> |r.rest| < |s|
  {
    var i := ReadInt(far, s, 0, 0);
    if i.Failed? then Failed(i.error)
    else if i.value >= |strings| then Failed(NoSuchString)
    else Done(strings[i.value], i.rest)
  }

  /** Reads the rest of a record of the given type, other than a string record. */
  function ReadRecord(far: Far, kind: Byte, s: seq<Byte>, strings: seq<Str>): (r: Read<Record>)
    ensures r.Done? ==> |r.rest| <= |s|
  {
    if kind == BASIC_BLOCK then Done(BasicBlock, s)
    else if kind == INSTRUCTION then Done(Instruction, s)
    else if kind !in {FUNCTION, DINSTRUCTION, FAULT_CANDIDATE, FAULT_INJECTED, MODULE_NAME} then Failed(NoSuchType)
    else
      var a := ReadRef(far, s, strings);
      if a.Failed? then Failed(a.error)
      else if kind == MODULE_NAME then Done(ModuleName(a.value), a.rest)
      else if kind == FAULT_CANDIDATE then Done(FaultCandidate(a.value), a.rest)
      else if kind == FAULT_INJECTED then Done(FaultInjected(a.value), a.rest)
      else if kind == FUNCTION then
        var b := ReadRef(far, a.rest, strings);
        if b.Failed? then Failed(b.error) else Done(FunctionStart(a.value, b.value), b.rest)
      else
        var b := ReadInt(far, a.rest, 0, 0);
        if b.Failed? then Failed(b.error) else Done(DInstruction(a.value, b.value), b.rest)
  }

  /** The callbacks that were invoked, and the error that ended the run, if any. */
  datatype Outcome = Outcome(records: seq<Record>, error: Option<Error>)

  function Parse(far: Far, s: seq<Byte>, strings: seq<Str>): Outcome
    decreases |s|
  {
    if s == [] then Outcome([], None)
    else if s[0] == STRING then
      var r := ReadString(s[1..]);
      if r.Failed? then Outcome([], Some(r.error)) else Parse(far, r.rest, strings + [r.value])
    else
      var r := ReadRecord(far, s[0], s[1..], strings);
      if r.Failed? then Outcome([], Some(r.error))
      else
        var o := Parse(far, r.rest, strings);
        Outcome([r.value] + o.records, o.error)
  }

  // ----- integers and strings come back -----

  /** What is left of the range of a word after `k` groups: 2^32 / 128^k. */
  function Limit(k: nat): nat {
    if k == 0 then 0x1_0000_0000 else if k == 1 then 0x200_0000 else if k == 2 then 0x4_0000 else if k == 3 then 0x800 else 16
  }

  lemma {:induction false} JoinNext(far: Far, value: Word, k: nat, q: nat, g: nat)
    requires k <= 4 && g < 128 && 0 < q && 128 * q + g < Limit(k) && value < Shifted(k, 1)
    ensures k <= 3 && q < Limit(k + 1) && Join(far, value, k, g) < Shifted(k + 1, 1)
    ensures Join(far, value, k, g) + Shifted(k + 1, q) == value + Shifted(k, 128 * q + g)
  {
  }

  lemma {:induction false} LastGroup(far: Far, v: Byte, k: nat, value: Word, rest: seq<Byte>)
    requires k <= 4 && v < 128 && v < Limit(k) && value < Shifted(k, 1)
    ensures value + Shifted(k, v) < Limit(0)
    ensures ReadInt(far, [v] + rest, k, value) == Done(value + Shifted(k, v), rest)
  {
    assert ([v] + rest)[1..] == rest;
  }

  lemma {:induction false} NextGroup(far: Far, s: seq<Byte>, g: nat, more: seq<Byte>, k: nat, value: Word)
    requires g < 128 && s == [128 + g] + more && (k <= 4 ==> value < Shifted(k, 1))
    ensures ReadInt(far, s, k, value) == ReadInt(far, more, k + 1, Join(far, value, k, g))
  {
    assert s[1..] == more;
  }

  lemma {:induction false} IntComesBack(far: Far, v: nat, k: nat, value: Word, rest: seq<Byte>)
    requires k <= 4 && v < Limit(k) && value < Shifted(k, 1)
    ensures value + Shifted(k, v) < Limit(0)
    ensures ReadInt(far, EncodeInt(v) + rest, k, value) == Done(value + Shifted(k, v), rest)
    decreases v
  {
    if v < 128 {
      LastGroup(far, v, k, value, rest);
    } else {
      var q, g := v / 128, v % 128;
      JoinNext(far, value, k, q, g);
      IntComesBack(far, q, k + 1, Join(far, value, k, g), rest);
      NextGroup(far, EncodeInt(v) + rest, g, EncodeInt(q) + rest, k, value);
    }
  }

  /** No group is shifted into the sign of an `int` or beyond, so that C says what every shift gives. */
  predicate ShiftsDefined(s: seq<Byte>, k: nat)
    decreases |s|
  {
    s == [] || ((k < 4 || (k == 4 && s[0] % 128 < 8)) && (s[0] < 128 || ShiftsDefined(s[1..], k + 1)))
  }

  lemma {:induction false} ShiftsNext(s: seq<Byte>, g: nat, more: seq<Byte>, k: nat)
    requires g < 128 && s == [128 + g] + more && k < 4
    ensures ShiftsDefined(s, k) == ShiftsDefined(more, k + 1)
  {
    assert s[1..] == more;
  }

  lemma {:induction false} ShiftsDefinedFrom(v: nat, k: nat, rest: seq<Byte>)
    requires k <= 4 && v < Limit(k)
    ensures ShiftsDefined(EncodeInt(v) + rest, k) <==> v + v < Limit(k)
    decreases v
  {
    if v >= 128 {
      ShiftsDefinedFrom(v / 128, k + 1, rest);
      ShiftsNext(EncodeInt(v) + rest, v % 128, EncodeInt(v / 128) + rest, k);
    }
  }

  /** Reading back a line number stays within what C defines exactly below 2^31. */
  lemma {:induction false} ShiftsDefinedIff(line: Word, rest: seq<Byte>)
    ensures ShiftsDefined(EncodeInt(line) + rest, 0) <==> line < 0x8000_0000
  {
    ShiftsDefinedFrom(line, 0, rest);
  }

  predicate NulFree(s: Str) {
    0 !in s
  }

  lemma {:induction false} StringComesBack(s: Str, rest: seq<Byte>)
    requires NulFree(s)
    ensures ReadString(s + [0] + rest) == Done(s, rest)
  {
    var t := s + [0] + rest;
    if s == [] {
      assert t[1..] == rest;
    } else {
      assert t[1..] == s[1..] + [0] + rest && [s[0]] + s[1..] == s;
      StringComesBack(s[1..], rest);
    }
  }

  // ----- the intern map is the inverse of the string vector -----

  ghost predicate Inverse(w: Interned, strings: seq<Str>) {
    && w.next == |strings|
    && (forall i :: 0 <= i < |strings| ==> strings[i] in w.refs && w.refs[strings[i]] == i)
    && (forall s :: s in w.refs ==> w.refs[s] < |strings| && strings[w.refs[s]] == s)
  }

  /** The string vector after a string was interned. */
  function Added(w: Interned, strings: seq<Str>, s: Str): seq<Str> {
    if s in w.refs then strings else strings + [s]
  }

  function AddedAll(w: Interned, strings: seq<Str>, ss: seq<Str>): seq<Str>
    decreases ss
  {
    if ss == [] then strings else AddedAll(Intern(w, ss[0]), Added(w, strings, ss[0]), ss[1..])
  }

  lemma {:induction false} InternInverse(w: Interned, strings: seq<Str>, s: Str)
    requires Inverse(w, strings)
    ensures Inverse(Intern(w, s), Added(w, strings, s)) && s in Intern(w, s).refs && Ref(w, s) == Intern(w, s).refs[s]
    ensures w.refs.Keys <= Intern(w, s).refs.Keys && w.next <= Intern(w, s).next
  {
  }

  /** Interning keeps the map the inverse of the vector. */
  lemma {:induction false} InternAllInverse(w: Interned, strings: seq<Str>, ss: seq<Str>)
    requires Inverse(w, strings)
    ensures Inverse(InternAll(w, ss), AddedAll(w, strings, ss))
    ensures forall s :: s in ss || s in w.refs ==> s in InternAll(w, ss).refs
    decreases ss
  {
    if ss != [] {
      InternInverse(w, strings, ss[0]);
      InternAllInverse(Intern(w, ss[0]), Added(w, strings, ss[0]), ss[1..]);
    }
  }

  /** The reader passes the string records in front of a record. */
  lemma {:induction false} StringsAreAdded(far: Far, w: Interned, strings: seq<Str>, ss: seq<Str>, rest: seq<Byte>)
    requires forall s :: s in ss ==> NulFree(s)
    ensures Parse(far, StringsBytes(w, ss) + rest, strings) == Parse(far, rest, AddedAll(w, strings, ss))
    decreases ss
  {
    if ss == [] {
      assert StringsBytes(w, ss) + rest == rest;
    } else {
      var s, more := ss[0], StringsBytes(Intern(w, ss[0]), ss[1..]) + rest;
      StringsAreAdded(far, Intern(w, s), Added(w, strings, s), ss[1..], rest);
      assert StringsBytes(w, ss) + rest == StringBytes(w, s) + more;
      StringIsAdded(far, w, strings, s, more);
    }
  }

  lemma {:induction false} StringIsAdded(far: Far, w: Interned, strings: seq<Str>, s: Str, rest: seq<Byte>)
    requires NulFree(s)
    ensures Parse(far, StringBytes(w, s) + rest, strings) == Parse(far, rest, Added(w, strings, s))
  {
    var t := StringBytes(w, s) + rest;
    if s in w.refs {
      assert t == rest;
    } else {
      assert t[1..] == s + [0] + rest;
      StringComesBack(s, rest);
    }
  }

  lemma {:induction false} RefComesBack(far: Far, w: Interned, strings: seq<Str>, s: Str, rest: seq<Byte>)
    requires Inverse(w, strings) && s in w.refs && w.next <= INT_LIMIT
    ensures ReadRef(far, EncodeInt(Ref(w, s)) + rest, strings) == Done(s, rest)
  {
    IntComesBack(far, w.refs[s], 0, 0, rest);
  }

  /** What the reader can give back: strings without a NUL. */
  predicate Representable(r: Record) {
    match r
    case ModuleName(name) => NulFree(name)
    case FunctionStart(name, relPath) => NulFree(name) && NulFree(relPath)
    case BasicBlock => true
    case Instruction => true
    case DInstruction(path, _) => NulFree(path)
    case FaultCandidate(name) => NulFree(name)
    case FaultInjected(name) => NulFree(name)
  }

  lemma {:induction false} OneRefRead(far: Far, w: Interned, strings: seq<Str>, s: Str, rest: seq<Byte>)
    requires Inverse(w, strings) && s in w.refs && w.next <= INT_LIMIT
    ensures var e := EncodeInt(Ref(w, s)) + rest;
            && ReadRecord(far, MODULE_NAME, e, strings) == Done(ModuleName(s), rest)
            && ReadRecord(far, FAULT_CANDIDATE, e, strings) == Done(FaultCandidate(s), rest)
            && ReadRecord(far, FAULT_INJECTED, e, strings) == Done(FaultInjected(s), rest)
  {
    RefComesBack(far, w, strings, s, rest);
  }

  lemma {:induction false} FunctionRead(far: Far, w: Interned, strings: seq<Str>, name: Str, relPath: Str, rest: seq<Byte>)
    requires Inverse(w, strings) && name in w.refs && relPath in w.refs && w.next <= INT_LIMIT
    ensures ReadRecord(far, FUNCTION, EncodeInt(Ref(w, name)) + (EncodeInt(Ref(w, relPath)) + rest), strings) == Done(FunctionStart(name, relPath), rest)
  {
    RefComesBack(far, w, strings, name, EncodeInt(Ref(w, relPath)) + rest);
    RefComesBack(far, w, strings, relPath, rest);
  }

  lemma {:induction false} DInstructionRead(far: Far, w: Interned, strings: seq<Str>, path: Str, line: Word, rest: seq<Byte>)
    requires Inverse(w, strings) && path in w.refs && w.next <= INT_LIMIT
    ensures ReadRecord(far, DINSTRUCTION, EncodeInt(Ref(w, path)) + (EncodeInt(line) + rest), strings) == Done(DInstruction(path, line), rest)
  {
    RefComesBack(far, w, strings, path, EncodeInt(line) + rest);
    IntComesBack(far, line, 0, 0, rest);
  }

  /** The reader makes of a record that refers to known strings what the writer made it from. */
  ghost predicate Readable(far: Far, b: seq<Byte>, strings: seq<Str>, r: Record, rest: seq<Byte>) {
    b != [] && b[0] != STRING && ReadRecord(far, b[0], b[1..] + rest, strings) == Done(r, rest)
  }

  lemma {:induction false} Tail(kind: Byte, e: seq<Byte>, f: seq<Byte>, rest: seq<Byte>)
    ensures ([kind] + e)[0] == kind && ([kind] + e)[1..] + rest == e + rest
    ensures ([kind] + e + f)[0] == kind && ([kind] + e + f)[1..] + rest == e + (f + rest)
  {
  }

  lemma {:induction false} RecordRead(far: Far, w: Interned, strings: seq<Str>, r: Record, rest: seq<Byte>)
    requires Inverse(w, strings) && Representable(r) && w.next <= INT_LIMIT && forall s :: s in Strings(r) ==> s in w.refs
    ensures Readable(far, RecordBytes(w, r), strings, r, rest)
  {
    match r
    case ModuleName(name) => OneRef(far, w, strings, name, rest);
    case FunctionStart(name, relPath) =>
      assert name in Strings(r) && relPath in Strings(r);
      FunctionRead(far, w, strings, name, relPath, rest);
      Tail(FUNCTION, EncodeInt(Ref(w, name)), EncodeInt(Ref(w, relPath)), rest);
    case BasicBlock => Tail(BASIC_BLOCK, [], [], rest);
    case Instruction => Tail(INSTRUCTION, [], [], rest);
    case DInstruction(path, line) =>
      assert path in Strings(r);
      DInstructionRead(far, w, strings, path, line, rest);
      Tail(DINSTRUCTION, EncodeInt(Ref(w, path)), EncodeInt(line), rest);
    case FaultCandidate(name) => OneRef(far, w, strings, name, rest);
    case FaultInjected(name) => OneRef(far, w, strings, name, rest);
  }

  lemma {:induction false} OneRef(far: Far, w: Interned, strings: seq<Str>, s: Str, rest: seq<Byte>)
    requires Inverse(w, strings) && s in w.refs && w.next <= INT_LIMIT
    ensures Readable(far, [MODULE_NAME] + EncodeInt(Ref(w, s)), strings, ModuleName(s), rest)
    ensures Readable(far, [FAULT_CANDIDATE] + EncodeInt(Ref(w, s)), strings, FaultCandidate(s), rest)
    ensures Readable(far, [FAULT_INJECTED] + EncodeInt(Ref(w, s)), strings, FaultInjected(s), rest)
  {
    OneRefRead(far, w, strings, s, rest);
    Tail(MODULE_NAME, EncodeInt(Ref(w, s)), [], rest);
    Tail(FAULT_CANDIDATE, EncodeInt(Ref(w, s)), [], rest);
    Tail(FAULT_INJECTED, EncodeInt(Ref(w, s)), [], rest);
  }

  lemma {:induction false} RecordComesBack(far: Far, b: seq<Byte>, strings: seq<Str>, r: Record, rest: seq<Byte>)
    requires Readable(far, b, strings, r, rest)
    ensures var o := Parse(far, rest, strings); Parse(far, b + rest, strings) == Outcome([r] + o.records, o.error)
  {
    assert (b + rest)[1..] == b[1..] + rest;
  }

  lemma {:induction false} StringsRepresentable(r: Record)
    requires Representable(r)
    ensures forall s :: s in Strings(r) ==> NulFree(s)
  {
  }

  // ----- whole files -----

  lemma {:induction false} InternGrows(w: Interned, ss: seq<Str>)
    ensures w.next <= InternAll(w, ss).next
    decreases ss
  {
    if ss != [] {
      InternGrows(Intern(w, ss[0]), ss[1..]);
    }
  }

  lemma {:induction false} AfterGrows(w: Interned, rs: seq<Record>)
    ensures w.next <= AfterAll(w, rs).next
    decreases rs
  {
    if rs != [] {
      InternGrows(w, Strings(rs[0]));
      AfterGrows(After(w, rs[0]), rs[1..]);
    }
  }

  lemma {:induction false} StringsThenRecord(far: Far, w: Interned, strings: seq<Str>, ss: seq<Str>, b: seq<Byte>, r: Record, rest: seq<Byte>)
    requires (forall s :: s in ss ==> NulFree(s)) && Readable(far, b, AddedAll(w, strings, ss), r, rest)
    ensures var o := Parse(far, rest, AddedAll(w, strings, ss)); Parse(far, StringsBytes(w, ss) + b + rest, strings) == Outcome([r] + o.records, o.error)
  {
    StringsAreAdded(far, w, strings, ss, b + rest);
    assert StringsBytes(w, ss) + b + rest == StringsBytes(w, ss) + (b + rest);
    RecordComesBack(far, b, AddedAll(w, strings, ss), r, rest);
  }

  /** The reader goes from one record boundary to the next, and the intern map stays the inverse of its string vector. */
  lemma {:induction false} BoundaryToBoundary(far: Far, w: Interned, strings: seq<Str>, r: Record, rest: seq<Byte>)
    requires Inverse(w, strings) && After(w, r).next <= INT_LIMIT && Representable(r)
    ensures Inverse(After(w, r), AddedAll(w, strings, Strings(r)))
    ensures var o := Parse(far, rest, AddedAll(w, strings, Strings(r))); Parse(far, Bytes(w, r) + rest, strings) == Outcome([r] + o.records, o.error)
  {
    StringsRepresentable(r);
    InternAllInverse(w, strings, Strings(r));
    RecordRead(far, After(w, r), AddedAll(w, strings, Strings(r)), r, rest);
    StringsThenRecord(far, w, strings, Strings(r), RecordBytes(After(w, r), r), r, rest);
  }

  /** From every record boundary on, the reader invokes exactly what the writer still writes. */
  lemma {:induction false} RecordsComeBack(far: Far, w: Interned, strings: seq<Str>, rs: seq<Record>)
    requires Inverse(w, strings) && AfterAll(w, rs).next <= INT_LIMIT && forall r :: r in rs ==> Representable(r)
    ensures Parse(far, AllBytes(w, rs), strings) == Outcome(rs, None)
    decreases rs
  {
    if rs != [] {
      AfterGrows(After(w, rs[0]), rs[1..]);
      BoundaryToBoundary(far, w, strings, rs[0], AllBytes(After(w, rs[0]), rs[1..]));
      RecordsComeBack(far, After(w, rs[0]), AddedAll(w, strings, Strings(rs[0])), rs[1..]);
      assert [rs[0]] + rs[1..] == rs;
    }
  }

  /** Strings that were read have no NUL. */
  lemma {:induction false} StringsWithoutNul(s: seq<Byte>)
    ensures ReadString(s).Done? ==> NulFree(ReadString(s).value)
    decreases |s|
  {
    if s != [] {
      StringsWithoutNul(s[1..]);
    }
  }

  lemma {:induction false} ReadsRepresentable(far: Far, s: seq<Byte>, strings: seq<Str>)
    requires forall t :: t in strings ==> NulFree(t)
    ensures forall r :: r in Parse(far, s, strings).records ==> Representable(r)
    decreases |s|
  {
    if s != [] {
      if s[0] == STRING {
        StringsWithoutNul(s[1..]);
        var r := ReadString(s[1..]);
        if r.Done? {
          ReadsRepresentable(far, r.rest, strings + [r.value]);
        }
      } else {
        var r := ReadRecord(far, s[0], s[1..], strings);
        if r.Done? {
          RecordRepresentable(far, s[0], s[1..], strings);
          ReadsRepresentable(far, r.rest, strings);
        }
      }
    }
  }

  lemma {:induction false} RecordRepresentable(far: Far, kind: Byte, s: seq<Byte>, strings: seq<Str>)
    requires (forall t :: t in strings ==> NulFree(t)) && ReadRecord(far, kind, s, strings).Done?
    ensures Representable(ReadRecord(far, kind, s, strings).value)
  {
  }

  /** Parsing what was written gives back the records that were written, with every line number, if and only if every
      string is free of NULs. */
  lemma {:induction false} RoundTripIff(far: Far, rs: seq<Record>)
    requires AfterAll(NOTHING, rs).next <= INT_LIMIT
    ensures Parse(far, AllBytes(NOTHING, rs), []) == Outcome(rs, None) <==> forall r :: r in rs ==> Representable(r)
  {
    ReadsRepresentable(far, AllBytes(NOTHING, rs), []);
    if forall r :: r in rs ==> Representable(r) {
      RecordsComeBack(far, NOTHING, [], rs);
    }
  }

  /** A name with a NUL inside does not come back. */
  lemma {:induction false} NulDerails(far: Far)
    ensures Parse(far, AllBytes(NOTHING, [ModuleName([65, 0, 66])]), []) != Outcome([ModuleName([65, 0, 66])], None)
  {
    var r := ModuleName([65, 0, 66]);
    assert 0 == r.name[1] && !Representable(r) && r in [r];
    assert AfterAll(NOTHING, [r]) == After(NOTHING, r) == Interned(map[r.name := 0], 1);
    RoundTripIff(far, [r]);
  }

  // ----- files that were cut short -----

  lemma {:induction false} IntExtends(far: Far, s: seq<Byte>, k: nat, value: Word, more: seq<Byte>)
    requires (k <= 4 ==> value < Shifted(k, 1)) && ReadInt(far, s, k, value).Done?
    ensures ReadInt(far, s + more, k, value) == Done(ReadInt(far, s, k, value).value, ReadInt(far, s, k, value).rest + more)
    decreases |s|
  {
    assert (s + more)[1..] == s[1..] + more;
    if s[0] >= 128 {
      IntExtends(far, s[1..], k + 1, Join(far, value, k, s[0] % 128), more);
    }
  }

  lemma {:induction false} StringExtends(s: seq<Byte>, more: seq<Byte>)
    requires ReadString(s).Done?
    ensures ReadString(s + more) == Done(ReadString(s).value, ReadString(s).rest + more)
    decreases |s|
  {
    assert (s + more)[1..] == s[1..] + more;
    if s[0] != 0 {
      StringExtends(s[1..], more);
    }
  }

  lemma {:induction false} RecordExtends(far: Far, kind: Byte, s: seq<Byte>, strings: seq<Str>, more: seq<Byte>)
    requires ReadRecord(far, kind, s, strings).Done?
    ensures ReadRecord(far, kind, s + more, strings) == Done(ReadRecord(far, kind, s, strings).value, ReadRecord(far, kind, s, strings).rest + more)
  {
    if kind != BASIC_BLOCK && kind != INSTRUCTION {
      IntExtends(far, s, 0, 0, more);
      if kind == FUNCTION || kind == DINSTRUCTION {
        IntExtends(far, ReadRef(far, s, strings).rest, 0, 0, more);
      }
    }
  }

  /** The callbacks for a file that was cut short are the first of the callbacks for the whole file. */
  lemma {:induction false} TruncatedFile(far: Far, s: seq<Byte>, strings: seq<Str>, more: seq<Byte>)
    ensures Parse(far, s, strings).records <= Parse(far, s + more, strings).records
    decreases |s|
  {
    if s != [] {
      assert (s + more)[1..] == s[1..] + more;
      if s[0] == STRING {
        var r := ReadString(s[1..]);
        if r.Done? {
          StringExtends(s[1..], more);
          TruncatedFile(far, r.rest, strings + [r.value], more);
        }
      } else {
        var r := ReadRecord(far, s[0], s[1..], strings);
        if r.Done? {
          RecordExtends(far, s[0], s[1..], strings, more);
          TruncatedFile(far, r.rest, strings, more);
        }
      }
    }
  }

  // ----- files that were damaged -----

  /** The strings that the reader holds after the records `rs`. */
  function StringsAfter(w: Interned, strings: seq<Str>, rs: seq<Record>): seq<Str>
    decreases rs
  {
    if rs == [] then strings else StringsAfter(After(w, rs[0]), AddedAll(w, strings, Strings(rs[0])), rs[1..])
  }

  lemma {:induction false} Regroup<T>(a: seq<T>, b: seq<T>, c: seq<T>)
    ensures a + (b + c) == a + b + c
  {
  }

  /** What follows the records does not change how they are read. */
  lemma {:induction false} RecordsThen(far: Far, w: Interned, strings: seq<Str>, rs: seq<Record>, tail: seq<Byte>)
    requires Inverse(w, strings) && AfterAll(w, rs).next <= INT_LIMIT && forall r :: r in rs ==> Representable(r)
    ensures var o := Parse(far, tail, StringsAfter(w, strings, rs));
            Parse(far, AllBytes(w, rs) + tail, strings) == Outcome(rs + o.records, o.error)
    decreases rs
  {
    var o := Parse(far, tail, StringsAfter(w, strings, rs));
    if rs == [] {
      assert AllBytes(w, rs) + tail == tail && rs + o.records == o.records;
    } else {
      var w', strings' := After(w, rs[0]), AddedAll(w, strings, Strings(rs[0]));
      var more := AllBytes(w', rs[1..]);
      AfterGrows(w', rs[1..]);
      BoundaryToBoundary(far, w, strings, rs[0], more + tail);
      Regroup(Bytes(w, rs[0]), more, tail);
      RecordsThen(far, w', strings', rs[1..], tail);
      Regroup([rs[0]], rs[1..], o.records);
      assert [rs[0]] + rs[1..] == rs;
    }
  }

  /** What the reader cannot go on from: a type it does not know, a string without an end, a number without an end, a
      reference to a string that was not written. */
  ghost predicate Damaged(tail: seq<Byte>, strings: nat, error: Error) {
    tail != [] &&
    match error
    case NoSuchType => tail[0] == 0 || tail[0] > 8
    case EndInString => tail[0] == 1 && 0 !in tail[1..]
    case EndInInt => tail[0] in {2, 5, 6, 7, 8} && forall i :: 0 < i < |tail| ==> tail[i] >= 128
    case NoSuchString => tail[0] in {2, 5, 6, 7, 8} && NumberFrom(tail[1..], strings)
  }

  /** The bytes start with a number that is at least `n`, as the writer writes numbers. */
  ghost predicate StartsWith(s: seq<Byte>, v: nat) {
    EncodeInt(v) <= s
  }

  ghost predicate NumberFrom(s: seq<Byte>, n: nat) {
    exists v: nat :: n <= v < 0x1_0000_0000 && StartsWith(s, v)
  }

  lemma {:induction false} Unterminated(s: seq<Byte>)
    requires 0 !in s
    ensures ReadString(s) == Failed(EndInString)
    decreases |s|
  {
    if s != [] {
      assert s[0] in s;
      Unterminated(s[1..]);
    }
  }

  lemma {:induction false} Unfinished(far: Far, s: seq<Byte>, k: nat, value: Word)
    requires (k <= 4 ==> value < Shifted(k, 1)) && forall i :: 0 <= i < |s| ==> s[i] >= 128
    ensures ReadInt(far, s, k, value) == Failed(EndInInt)
    decreases |s|
  {
    if s != [] {
      Unfinished(far, s[1..], k + 1, Join(far, value, k, s[0] % 128));
    }
  }

  lemma {:induction false} Dangling(far: Far, s: seq<Byte>, strings: seq<Str>, v: nat)
    requires |strings| <= v < 0x1_0000_0000 && StartsWith(s, v)
    ensures ReadRef(far, s, strings) == Failed(NoSuchString)
  {
    var rest := s[|EncodeInt(v)|..];
    assert s == EncodeInt(v) + rest;
    IntComesBack(far, v, 0, 0, rest);
  }

  lemma {:induction false} DamageFound(far: Far, tail: seq<Byte>, strings: seq<Str>, error: Error)
    requires Damaged(tail, |strings|, error)
    ensures Parse(far, tail, strings) == Outcome([], Some(error))
  {
    match error
    case NoSuchType =>
    case EndInString => Unterminated(tail[1..]);
    case EndInInt => Unfinished(far, tail[1..], 0, 0);
    case NoSuchString =>
      var v: nat :| |strings| <= v < 0x1_0000_0000 && StartsWith(tail[1..], v);
      Dangling(far, tail[1..], strings, v);
  }

  /** A file that was damaged after some records: the reader invokes its callbacks for these records, and reports what it
      ran into. */
  lemma {:induction false} DamagedFile(far: Far, rs: seq<Record>, tail: seq<Byte>, error: Error)
    requires AfterAll(NOTHING, rs).next <= INT_LIMIT && forall r :: r in rs ==> Representable(r)
    requires Damaged(tail, |StringsAfter(NOTHING, [], rs)|, error)
    ensures Parse(far, AllBytes(NOTHING, rs) + tail, []) == Outcome(rs, Some(error))
  {
    RecordsThen(far, NOTHING, [], rs, tail);
    DamageFound(far, tail, StringsAfter(NOTHING, [], rs), error);
    assert rs + [] == rs;
  }

  // ----- the bytes themselves -----

  lemma {:induction false} NewString(w: Interned, s: Str)
    requires s !in w.refs
    ensures StringsBytes(w, [s]) == [1] + s + [0] && InternAll(w, [s]) == Interned(w.refs[s := w.next], w.next + 1)
  {
    assert [s][1..] == [] && [1] + s + [0] + [] == [1] + s + [0];
  }

  lemma {:induction false} OldString(w: Interned, s: Str)
    requires s in w.refs
    ensures StringsBytes(w, [s]) == [] && InternAll(w, [s]) == w
  {
    assert [s][1..] == [];
  }

  /** The bytes of a record: a string goes before the first record that needs it, and is the number of the strings before it
      from then on. The numbers of the types are those of the file format. */
  lemma {:induction false} RecordLayout(w: Interned, a: Str, line: Word)
    ensures var lead, ref := if a in w.refs then [] else [1] + a + [0], EncodeInt(if a in w.refs then w.refs[a] else w.next);
            && Bytes(w, ModuleName(a)) == lead + ([8] + ref) && Bytes(w, FaultCandidate(a)) == lead + ([6] + ref)
            && Bytes(w, FaultInjected(a)) == lead + ([7] + ref) && Bytes(w, DInstruction(a, line)) == lead + ([5] + ref + EncodeInt(line))
    ensures Bytes(w, BasicBlock) == [3] && Bytes(w, Instruction) == [4]
  {
    if a in w.refs {
      OldString(w, a);
    } else {
      NewString(w, a);
    }
  }

  lemma {:induction false} FunctionLayout(w: Interned, a: Str, b: Str)
    requires a !in w.refs && b in w.refs
    ensures Bytes(w, FunctionStart(a, b)) == [1] + a + [0] + ([2] + EncodeInt(w.next) + EncodeInt(w.refs[b]))
  {
    var w' := Interned(w.refs[a := w.next], w.next + 1);
    OldString(w', b);
    assert [a, b][1..] == [b] && [1] + a + [0] + [] == [1] + a + [0];
    assert StringsBytes(w, [a, b]) == [1] + a + [0] && InternAll(w, [a, b]) == w';
  }

  /** Numbers go in groups of seven bits, the low ones first, all but the last with the top bit set. */
  lemma {:induction false} NumberLayout(v: nat)
    ensures v < 128 ==> EncodeInt(v) == [v]
    ensures 128 <= v < 0x4000 ==> EncodeInt(v) == [128 + v % 128, v / 128]
    ensures 0x4000 <= v < 0x20_0000 ==> EncodeInt(v) == [128 + v % 128, 128 + v / 128 % 128, v / 0x4000]
  {
    if 0x4000 <= v < 0x20_0000 {
      assert v / 128 / 128 == v / 0x4000;
      assert EncodeInt(v / 128) == [128 + v / 128 % 128, v / 0x4000];
    }
  }
}
