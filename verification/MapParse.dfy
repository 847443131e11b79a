/** The reader of map files. */
module MapParse {
  import opened MapFormat
  import opened Options

  /** A reading method has stopped where the specification has stopped, or failed as it has. */
  ghost predicate Reached<T>(file: seq<Byte>, spec: Read<T>, error: Option<Error>, value: T, next: nat) {
    match spec
    case Done(v, rest) => error.None? && value == v && next <= |file| && rest == file[next..]
    case Failed(e) => error == Some(e)
  }

  method IntRead(far: Far, file: seq<Byte>, pos: nat) returns (error: Option<Error>, value: Word, next: nat)
    requires pos <= |file|
    ensures Reached(file, ReadInt(far, file[pos..], 0, 0), error, value, next)
  {
    error, value, next := None, 0, pos;
    var k := 0;
    while true
      invariant pos <= next <= |file| && (k <= 4 ==> value < Shifted(k, 1))
      invariant ReadInt(far, file[pos..], 0, 0) == ReadInt(far, file[next..], k, value)
      decreases |file| - next
    {
      if next == |file| {
        error := Some(EndInInt);
        return;
      }
      var c := file[next];
      value, next, k := Join(far, value, k, c % 128), next + 1, k + 1;
      if c < 128 {
        return;
      }
    }
  }

  function Prefixed(s: Str, r: Read<Str>): Read<Str> {
    if r.Failed? then r else Done(s + r.value, r.rest)
  }

  lemma {:induction false} PrefixedOne(s: Str, c: Byte, r: Read<Str>)
    ensures Prefixed(s + [c], r) == Prefixed(s, Prefixed([c], r)) && Prefixed([], r) == r
  {
    if r.Done? {
      assert s + [c] + r.value == s + ([c] + r.value) && [] + r.value == r.value;
    }
  }

  method StringRead(file: seq<Byte>, pos: nat) returns (error: Option<Error>, result: Str, next: nat)
    requires pos <= |file|
    ensures Reached(file, ReadString(file[pos..]), error, result, next)
  {
    error, result, next := None, [], pos;
    PrefixedOne([], 0, ReadString(file[pos..]));
    while true
      invariant pos <= next <= |file|
      invariant ReadString(file[pos..]) == Prefixed(result, ReadString(file[next..]))
      decreases |file| - next
    {
      if next == |file| {
        error := Some(EndInString);
        return;
      }
      var c := file[next];
      next := next + 1;
      if c == 0 {
        assert result + [] == result;
        return;
      }
      PrefixedOne(result, c, ReadString(file[next..]));
      result := result + [c];
    }
  }

  method RefRead(far: Far, file: seq<Byte>, pos: nat, strings: seq<Str>) returns (error: Option<Error>, s: Str, next: nat)
    requires pos <= |file|
    ensures Reached(file, ReadRef(far, file[pos..], strings), error, s, next)
  {
    var ref;
    s := [];
    error, ref, next := IntRead(far, file, pos);
    if error.Some? {
      return;
    }
    if ref >= |strings| {
      error := Some(NoSuchString);
      return;
    }
    s := strings[ref];
  }

  method RecordRead(far: Far, kind: Byte, file: seq<Byte>, pos: nat, strings: seq<Str>) returns (error: Option<Error>, r: Record, next: nat)
    requires pos <= |file|
    ensures Reached(file, ReadRecord(far, kind, file[pos..], strings), error, r, next)
  {
    error, r, next := None, BasicBlock, pos;
    var s, t, line;
    if kind == BASIC_BLOCK {
      return;
    } else if kind == INSTRUCTION {
      r := Instruction;
      return;
    } else if kind !in {FUNCTION, DINSTRUCTION, FAULT_CANDIDATE, FAULT_INJECTED, MODULE_NAME} {
      error := Some(NoSuchType);
      return;
    }
    error, s, next := RefRead(far, file, pos, strings);
    if error.Some? {
      return;
    }
    if kind == MODULE_NAME {
      r := ModuleName(s);
    } else if kind == FAULT_CANDIDATE {
      r := FaultCandidate(s);
    } else if kind == FAULT_INJECTED {
      r := FaultInjected(s);
    } else if kind == FUNCTION {
      error, t, next := RefRead(far, file, next, strings);
      r := FunctionStart(s, t);
    } else {
      error, line, next := IntRead(far, file, next);
      r := DInstruction(s, line);
    }
  }

  /** The dispatch loop: the callbacks it invokes and the error it stops with are those of the specification. */
  method ParseFile(far: Far, file: seq<Byte>) returns (records: seq<Record>, error: Option<Error>)
    ensures Outcome(records, error) == Parse(far, file, [])
  {
    var strings: seq<Str> := [];
    var pos := 0;
    records, error := [], None;
    assert file[0..] == file;
    while pos < |file|
      invariant 0 <= pos <= |file| && error.None?
      invariant Follows(Parse(far, file, []), records, Parse(far, file[pos..], strings))
      decreases |file| - pos
    {
      var kind := file[pos];
      var s, r, next;
      assert file[pos..][1..] == file[pos+1..];
      if kind == STRING {
        error, s, next := StringRead(file, pos + 1);
        if error.Some? {
          return;
        }
        strings := strings + [s];
      } else {
        error, r, next := RecordRead(far, kind, file, pos + 1, strings);
        if error.Some? {
          return;
        }
        FollowsOne(Parse(far, file, []), records, r, Parse(far, file[next..], strings));
        records := records + [r];
      }
      pos := next;
    }
  }

  ghost predicate Follows(total: Outcome, records: seq<Record>, cur: Outcome) {
    total == Outcome(records + cur.records, cur.error)
  }

  lemma {:induction false} FollowsOne(total: Outcome, records: seq<Record>, r: Record, cur: Outcome)
    requires Follows(total, records, Outcome([r] + cur.records, cur.error))
    ensures Follows(total, records + [r], cur)
  {
  }
}
