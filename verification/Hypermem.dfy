/**
 The hypermem protocol: a client sends commands to the hypervisor as a stream of 32-bit words. A decoder that follows
 the protocol gets back exactly the commands that were sent.
 */
module Hypermem {
  import opened Options

  const WORDS := 0x1_0000_0000

  type Word = w: nat | w < WORDS

  type Byte = b: nat | b < 256

  type Str = seq<Byte>

  datatype Command =
    | Connect
    | Disconnect
    | Nop
    | Fault(bbIndex: Word, name: Str)
    | EdfiContextSet(context: Word, ptrOffset: Word, name: Str)
    | Print(text: Str)
    | EdfiFaultIndexGet(name: Str)
    | EdfiDumpStats(message: Str)
    | EdfiDumpStatsModule(name: Str, message: Str)
    | SetCr3(cr3: Word)
    | MagicContextSet(nameLength: Word, namePtr: Word, contextPtr: Word, size: Word)
    | MagicSt(nameLength: Word, namePtr: Word)
    | MagicStAll
    | Quit
    | ReleaseCr3(cr3: Word)

  // The command identifiers: the magic number 0x773e35dd with one of the numbers 1 to 15 joined by exclusive or.
  const CONNECT: Word := 0x773e35dc
  const DISCONNECT: Word := 0x773e35df
  const NOP: Word := 0x773e35de
  const FAULT: Word := 0x773e35d9
  const EDFI_CONTEXT_SET: Word := 0x773e35d8
  const PRINT: Word := 0x773e35db
  const EDFI_FAULTINDEX_GET: Word := 0x773e35da
  const EDFI_DUMP_STATS: Word := 0x773e35d5
  const EDFI_DUMP_STATS_MODULE: Word := 0x773e35d4
  const SET_CR3: Word := 0x773e35d7
  const MAGIC_CONTEXT_SET: Word := 0x773e35d6
  const MAGIC_ST: Word := 0x773e35d1
  const MAGIC_ST_ALL: Word := 0x773e35d0
  const QUIT: Word := 0x773e35d3
  const RELEASE_CR3: Word := 0x773e35d2

  // ----- strings as words -----

  function Bytes4(a: nat, b: nat, c: nat, d: nat): nat {
    a + 0x100 * b + 0x10000 * c + 0x1000000 * d
  }

  /** Up to four bytes in a word, the first in the low bits; what is missing is zero. */
  function Pack(s: Str): Word
    requires |s| <= 4
  {
    if s == [] then 0
    else if |s| == 1 then Bytes4(s[0], 0, 0, 0)
    else if |s| == 2 then Bytes4(s[0], s[1], 0, 0)
    else if |s| == 3 then Bytes4(s[0], s[1], s[2], 0)
    else Bytes4(s[0], s[1], s[2], s[3])
  }

  /** The byte of a word behind `k` others. */
  function ByteAt(w: nat, k: nat): Byte {
    if k == 0 then w % 0x100 else ByteAt(w / 0x100, k - 1)
  }

  /** The first bytes of a word. */
  function Unpack(w: Word, n: nat): (s: Str)
    requires n <= 4
    ensures |s| == n
  {
    if n == 0 then [] else Unpack(w, n - 1) + [ByteAt(w, n - 1)]
  }

  lemma {:induction false} FourBytes(a: Byte, b: Byte, c: Byte, d: Byte)
    ensures var w := Bytes4(a, b, c, d); ByteAt(w, 0) == a && ByteAt(w, 1) == b && ByteAt(w, 2) == c && ByteAt(w, 3) == d
  {
    var w := Bytes4(a, b, c, d);
    var x := b + 0x100 * (c + 0x100 * d);
    assert w == a + 0x100 * x && w / 0x100 == x;
    assert ByteAt(w, 1) == ByteAt(x, 0) && ByteAt(w, 2) == ByteAt(x, 1) && ByteAt(w, 3) == ByteAt(x, 2);
    assert ByteAt(x, 1) == ByteAt(c + 0x100 * d, 0) && ByteAt(x, 2) == ByteAt(c + 0x100 * d, 1) == ByteAt(d, 0);
  }

  lemma {:induction false} UnpackIs(w: Word, n: nat)
    requires n <= 4
    ensures forall k :: 0 <= k < n ==> Unpack(w, n)[k] == ByteAt(w, k)
  {
    if n > 0 {
      UnpackIs(w, n - 1);
    }
  }

  lemma {:induction false} UnpackPack(s: Str)
    requires |s| <= 4
    ensures Unpack(Pack(s), |s|) == s
  {
    var t := s + [0, 0, 0, 0];
    FourBytes(t[0], t[1], t[2], t[3]);
    UnpackIs(Pack(s), |s|);
  }

  /** Partial words are padded with zeros. */
  lemma {:induction false} PackPads(s: Str)
    requires |s| <= 4
    ensures Pack(s) == Pack(s + seq(4 - |s|, i => 0))
  {
  }

  function Min(a: nat, b: nat): nat {
    if a <= b then a else b
  }

  function Chunks(s: Str): seq<Word> {
    if s == [] then [] else [Pack(s[..Min(4, |s|)])] + Chunks(s[Min(4, |s|)..])
  }

  /** The length, as far as it fits in a word, and the bytes, four to a word. */
  function StringWords(s: Str): seq<Word> {
    [Truncated(|s|)] + Chunks(s)
  }

  function Truncated(n: nat): Word {
    if n < WORDS then n else n % WORDS
  }

  /** A string of n bytes takes 1 + ceil(n / 4) words. */
  lemma {:induction false} StringLength(s: Str)
    ensures |StringWords(s)| == 1 + (|s| + 3) / 4
  {
    ChunksLength(s);
  }

  lemma {:induction false} ChunksLength(s: Str)
    ensures |Chunks(s)| == (|s| + 3) / 4
  {
    if s != [] {
      ChunksLength(s[Min(4, |s|)..]);
    }
  }

  function StringsWords(ss: seq<Str>): seq<Word> {
    if ss == [] then [] else StringWords(ss[0]) + StringsWords(ss[1..])
  }

  // ----- commands as words -----

  /** The words of a command in front of its strings. */
  function Header(c: Command): seq<Word> {
    match c
    case Connect => [CONNECT]
    case Disconnect => [DISCONNECT]
    case Nop => [NOP]
    case Fault(bbIndex, _) => [FAULT, bbIndex]
    case EdfiContextSet(context, ptrOffset, _) => [EDFI_CONTEXT_SET, context, ptrOffset]
    case Print(_) => [PRINT]
    case EdfiFaultIndexGet(_) => [EDFI_FAULTINDEX_GET]
    case EdfiDumpStats(_) => [EDFI_DUMP_STATS]
    case EdfiDumpStatsModule(_, _) => [EDFI_DUMP_STATS_MODULE]
    case SetCr3(cr3) => [SET_CR3, cr3]
    case MagicContextSet(nameLength, namePtr, contextPtr, size) => [MAGIC_CONTEXT_SET, nameLength, namePtr, contextPtr, size]
    case MagicSt(nameLength, namePtr) => [MAGIC_ST, nameLength, namePtr]
    case MagicStAll => [MAGIC_ST_ALL]
    case Quit => [QUIT]
    case ReleaseCr3(cr3) => [RELEASE_CR3, cr3]
  }

  /** The strings of a command, in the order in which they are written. */
  function Strings(c: Command): seq<Str> {
    match c
    case Fault(_, name) => [name]
    case EdfiContextSet(_, _, name) => [name]
    case Print(text) => [text]
    case EdfiFaultIndexGet(name) => [name]
    case EdfiDumpStats(message) => [message]
    case EdfiDumpStatsModule(name, message) => [name, message]
    case _ => []
  }

  function Encode(c: Command): seq<Word> {
    Header(c) + StringsWords(Strings(c))
  }

  function EncodeAll(cs: seq<Command>): seq<Word> {
    if cs == [] then [] else Encode(cs[0]) + EncodeAll(cs[1..])
  }

  // ----- and back -----

  datatype Read<T> = Done(value: T, rest: seq<Word>) | Failed

  function ReadBytes(ws: seq<Word>, n: nat): (r: Read<Str>)
    ensures r.Done? ==> |r.value| == n && |r.rest| <= |ws|
    decreases n
  {
    if n == 0 then Done([], ws)
    else if ws == [] then Failed
    else
      var r := ReadBytes(ws[1..], n - Min(4, n));
      if r.Failed? then Failed else Done(Unpack(ws[0], Min(4, n)) + r.value, r.rest)
  }

  /** The length, then the bytes. */
  function ReadString(ws: seq<Word>): (r: Read<Str>)
    ensures r.Done? ==> |r.value| < WORDS && |r.rest| <= |ws|
  {
    if ws == [] then Failed else ReadBytes(ws[1..], ws[0])
  }

  function ReadStrings(ws: seq<Word>, n: nat): (r: Read<seq<Str>>)
    ensures r.Done? ==> |r.value| == n && |r.rest| <= |ws| && forall s :: s in r.value ==> |s| < WORDS
    decreases n
  {
    if n == 0 then Done([], ws)
    else
      var s := ReadString(ws);
      if s.Failed? then Failed
      else
        var r := ReadStrings(s.rest, n - 1);
        if r.Failed? then Failed else Done([s.value] + r.value, r.rest)
  }

  /** By the protocol: the words and the strings that follow a command identifier. */
  function Shape(id: Word): Option<(nat, nat)> {
    if id in {CONNECT, DISCONNECT, NOP, MAGIC_ST_ALL, QUIT} then Some((0, 0))
    else if id in {SET_CR3, RELEASE_CR3} then Some((1, 0))
    else if id == MAGIC_ST then Some((2, 0))
    else if id == MAGIC_CONTEXT_SET then Some((4, 0))
    else if id in {PRINT, EDFI_FAULTINDEX_GET, EDFI_DUMP_STATS} then Some((0, 1))
    else if id == FAULT then Some((1, 1))
    else if id == EDFI_CONTEXT_SET then Some((2, 1))
    else if id == EDFI_DUMP_STATS_MODULE then Some((0, 2))
    else None
  }

  function Build(id: Word, ws: seq<Word>, ss: seq<Str>): (c: Command)
    requires Shape(id) == Some((|ws|, |ss|))
    ensures Strings(c) == ss
  {
    if id == CONNECT then Connect
    else if id == DISCONNECT then Disconnect
    else if id == NOP then Nop
    else if id == MAGIC_ST_ALL then MagicStAll
    else if id == QUIT then Quit
    else if id == SET_CR3 then SetCr3(ws[0])
    else if id == RELEASE_CR3 then ReleaseCr3(ws[0])
    else if id == MAGIC_ST then MagicSt(ws[0], ws[1])
    else if id == MAGIC_CONTEXT_SET then MagicContextSet(ws[0], ws[1], ws[2], ws[3])
    else if id == PRINT then Print(ss[0])
    else if id == EDFI_FAULTINDEX_GET then EdfiFaultIndexGet(ss[0])
    else if id == EDFI_DUMP_STATS then EdfiDumpStats(ss[0])
    else if id == FAULT then Fault(ws[0], ss[0])
    else if id == EDFI_CONTEXT_SET then EdfiContextSet(ws[0], ws[1], ss[0])
    else EdfiDumpStatsModule(ss[0], ss[1])
  }

  function ReadCommand(id: Word, ws: seq<Word>): (r: Read<Command>)
    ensures r.Done? ==> |r.rest| <= |ws| && Fits(r.value)
  {
    var shape := Shape(id);
    if shape.None? || |ws| < shape.value.0 then Failed
    else
      var r := ReadStrings(ws[shape.value.0..], shape.value.1);
      if r.Failed? then Failed else Done(Build(id, ws[..shape.value.0], r.value), r.rest)
  }

  function ReadFirst(ws: seq<Word>): (r: Read<Command>)
    requires ws != []
    ensures r.Done? ==> |r.rest| < |ws| && Fits(r.value)
  {
    ReadCommand(ws[0], ws[1..])
  }

  function Decode(ws: seq<Word>): Option<seq<Command>>
    decreases |ws|
  {
    if ws == [] then Some([])
    else
      var r := ReadFirst(ws);
      if r.Failed? then None
      else
        var more := Decode(r.rest);
        if more.None? then None else Some([r.value] + more.value)
  }

  // ----- the round trip -----

  lemma {:induction false} FirstChunk(s: Str, k: nat) returns (w: Word)
    requires s != [] && k == Min(4, |s|)
    ensures Chunks(s) == [w] + Chunks(s[k..]) && Unpack(w, k) == s[..k]
  {
    w := Pack(s[..k]);
    UnpackPack(s[..k]);
  }

  lemma {:induction false} ReadBytesStep(ws: seq<Word>, w: Word, tail: seq<Word>, n: nat, k: nat, first: Str, more: Str, rest: seq<Word>)
    requires ws == [w] + tail && n > 0 && k == Min(4, n) && Unpack(w, k) == first && ReadBytes(tail, n - k) == Done(more, rest)
    ensures ReadBytes(ws, n) == Done(first + more, rest)
  {
    assert ws[0] == w && ws[1..] == tail;
  }

  lemma {:induction false} BytesComeBack(s: Str, rest: seq<Word>)
    ensures ReadBytes(Chunks(s) + rest, |s|) == Done(s, rest)
    decreases |s|
  {
    if s == [] {
      assert Chunks(s) + rest == rest;
    } else {
      var k := Min(4, |s|);
      var t := s[k..];
      BytesComeBack(t, rest);
      var w := FirstChunk(s, k);
      JoinWords(w, Chunks(t), rest);
      ReadBytesStep(Chunks(s) + rest, w, Chunks(t) + rest, |s|, k, s[..k], t, rest);
      assert s[..k] + t == s;
    }
  }

  lemma {:induction false} JoinWords(w: Word, a: seq<Word>, b: seq<Word>)
    ensures [w] + a + b == [w] + (a + b)
  {
  }

  lemma {:induction false} ReadStringStep(ws: seq<Word>, n: Word, s: Str, rest: seq<Word>)
    requires ws != [] && ws[0] == n && ReadBytes(ws[1..], n) == Done(s, rest)
    ensures ReadString(ws) == Done(s, rest)
  {
  }

  lemma {:induction false} StringComesBack(s: Str, rest: seq<Word>)
    requires |s| < WORDS
    ensures ReadString(StringWords(s) + rest) == Done(s, rest)
  {
    var ws := StringWords(s) + rest;
    assert ws[0] == |s| && ws[1..] == Chunks(s) + rest;
    BytesComeBack(s, rest);
    ReadStringStep(ws, |s|, s, rest);
  }

  lemma {:induction false} ReadStringsStep(ws: seq<Word>, n: nat, s: Str, mid: seq<Word>, more: seq<Str>, rest: seq<Word>)
    requires ReadString(ws) == Done(s, mid) && ReadStrings(mid, n) == Done(more, rest)
    ensures ReadStrings(ws, n + 1) == Done([s] + more, rest)
  {
  }

  lemma {:induction false} StringsComeBack(ss: seq<Str>, rest: seq<Word>)
    requires forall s :: s in ss ==> |s| < WORDS
    ensures ReadStrings(StringsWords(ss) + rest, |ss|) == Done(ss, rest)
    decreases ss
  {
    var ws := StringsWords(ss) + rest;
    if ss == [] {
      assert ws == rest;
    } else {
      var mid := StringsWords(ss[1..]) + rest;
      assert ws == StringWords(ss[0]) + mid;
      StringComesBack(ss[0], mid);
      StringsComeBack(ss[1..], rest);
      ReadStringsStep(ws, |ss| - 1, ss[0], mid, ss[1..], rest);
      assert [ss[0]] + ss[1..] == ss;
    }
  }

  /** The strings of a command have lengths that fit in a word. */
  ghost predicate Fits(c: Command) {
    forall s :: s in Strings(c) ==> |s| < WORDS
  }

  lemma {:induction false} BuildsBack(c: Command)
    ensures Header(c) != [] && Shape(Header(c)[0]) == Some((|Header(c)| - 1, |Strings(c)|))
    ensures Build(Header(c)[0], Header(c)[1..], Strings(c)) == c
  {
  }

  lemma {:induction false} ReadCommandStep(id: Word, ws: seq<Word>, args: seq<Word>, ss: seq<Str>, tail: seq<Word>, rest: seq<Word>)
    requires Shape(id) == Some((|args|, |ss|)) && ws == args + tail && ReadStrings(tail, |ss|) == Done(ss, rest)
    ensures ReadCommand(id, ws) == Done(Build(id, args, ss), rest)
  {
  }

  lemma {:induction false} ReadFirstStep(ws: seq<Word>, id: Word, args: seq<Word>, ss: seq<Str>, tail: seq<Word>, rest: seq<Word>)
    requires ws == [id] + (args + tail) && Shape(id) == Some((|args|, |ss|)) && ReadStrings(tail, |ss|) == Done(ss, rest)
    ensures ReadFirst(ws) == Done(Build(id, args, ss), rest)
  {
    assert ws[0] == id && ws[1..] == args + tail;
    ReadCommandStep(id, ws[1..], args, ss, tail, rest);
  }

  lemma {:induction false} CommandComesBack(c: Command, rest: seq<Word>)
    requires Fits(c)
    ensures Encode(c) + rest != [] && ReadFirst(Encode(c) + rest) == Done(c, rest)
  {
    BuildsBack(c);
    var h, tail := Header(c), StringsWords(Strings(c)) + rest;
    assert Encode(c) + rest == [h[0]] + (h[1..] + tail);
    StringsComeBack(Strings(c), rest);
    ReadFirstStep(Encode(c) + rest, h[0], h[1..], Strings(c), tail, rest);
  }

  lemma {:induction false} DecodeStep(ws: seq<Word>, c: Command, rest: seq<Word>, cs: seq<Command>)
    requires ws != [] && ReadFirst(ws) == Done(c, rest) && Decode(rest) == Some(cs)
    ensures Decode(ws) == Some([c] + cs)
  {
  }

  lemma {:induction false} CommandsComeBack(cs: seq<Command>)
    requires forall c :: c in cs ==> Fits(c)
    ensures Decode(EncodeAll(cs)) == Some(cs)
    decreases cs
  {
    if cs != [] {
      CommandsComeBack(cs[1..]);
      CommandComesBack(cs[0], EncodeAll(cs[1..]));
      DecodeStep(EncodeAll(cs), cs[0], EncodeAll(cs[1..]), cs[1..]);
      assert [cs[0]] + cs[1..] == cs;
    }
  }

  lemma {:induction false} DecodedFit(ws: seq<Word>)
    ensures Decode(ws).Some? ==> forall c :: c in Decode(ws).value ==> Fits(c)
    decreases |ws|
  {
    if ws != [] {
      var r := ReadFirst(ws);
      if r.Done? {
        DecodedFit(r.rest);
      }
    }
  }

  /** Every list of commands comes back from its words, if and only if every string length fits in a word. */
  lemma {:induction false} RoundTripIff(cs: seq<Command>)
    ensures Decode(EncodeAll(cs)) == Some(cs) <==> forall c :: c in cs ==> Fits(c)
  {
    DecodedFit(EncodeAll(cs));
    if forall c :: c in cs ==> Fits(c) {
      CommandsComeBack(cs);
    }
  }

  /** A text of 2^32 bytes does not come back. */
  lemma {:induction false} LongTextLost(text: Str)
    requires text == seq(WORDS, i => 0)
    ensures Decode(EncodeAll([Print(text)])) != Some([Print(text)])
  {
    assert |text| == WORDS && text in Strings(Print(text)) && Print(text) in [Print(text)];
    RoundTripIff([Print(text)]);
  }

  lemma {:induction false} EncodeAppend(cs: seq<Command>, c: Command)
    ensures EncodeAll(cs + [c]) == EncodeAll(cs) + Encode(c)
  {
    if cs == [] {
      assert [c][1..] == [] && cs + [c] == [c];
    } else {
      assert (cs + [c])[1..] == cs[1..] + [c];
      EncodeAppend(cs[1..], c);
    }
  }

  lemma {:induction false} EncodeNoString(c: Command)
    requires Strings(c) == []
    ensures Encode(c) == Header(c)
  {
  }

  lemma {:induction false} EncodeOneString(before: seq<Word>, c: Command, s: Str)
    requires Strings(c) == [s]
    ensures before + Encode(c) == before + Header(c) + StringWords(s)
  {
    assert [s][1..] == [];
    assert StringsWords([s]) == StringWords(s) + StringsWords([]);
  }

  lemma {:induction false} EncodeTwoStrings(before: seq<Word>, c: Command, s: Str, t: Str)
    requires Strings(c) == [s, t]
    ensures before + Encode(c) == before + Header(c) + StringWords(s) + StringWords(t)
  {
    assert [s, t][1..] == [t] && [t][1..] == [];
    assert StringsWords([t]) == StringWords(t) + StringsWords([]);
    assert StringsWords([s, t]) == StringWords(s) + StringsWords([t]);
  }

  /** The command identifiers are those of the protocol, and all different. */
  lemma {:induction false} Identifiers()
    ensures var magic: bv32 := 0x773e35dd;
            && [CONNECT, DISCONNECT, NOP, FAULT, EDFI_CONTEXT_SET] ==
               [(magic ^ 1) as Word, (magic ^ 2) as Word, (magic ^ 3) as Word, (magic ^ 4) as Word, (magic ^ 5) as Word]
            && [PRINT, EDFI_FAULTINDEX_GET, EDFI_DUMP_STATS, EDFI_DUMP_STATS_MODULE, SET_CR3] ==
               [(magic ^ 6) as Word, (magic ^ 7) as Word, (magic ^ 8) as Word, (magic ^ 9) as Word, (magic ^ 10) as Word]
            && [MAGIC_CONTEXT_SET, MAGIC_ST, MAGIC_ST_ALL, QUIT, RELEASE_CR3] ==
               [(magic ^ 11) as Word, (magic ^ 12) as Word, (magic ^ 13) as Word, (magic ^ 14) as Word, (magic ^ 15) as Word]
  {
  }

  // ----- the client -----

  /** The name that the magic commands use. */
  const TEST_MODULE_LENGTH: Word := 11

  /** What the hypervisor answers to a nop. */
  const NOP_REPLY: Word := 0x4e6f7021

  class Session {
    var words: seq<Word>
    ghost var sent: seq<Command>

    /** The words are those of the commands sent so far. */
    ghost predicate Valid()
      reads this
    {
      words == EncodeAll(sent)
    }

    ghost predicate Sent(before: seq<Command>, c: Command)
      reads this
    {
      Valid() && sent == before + [c]
    }

    constructor ()
      ensures Valid() && sent == []
    {
      words, sent := [], [];
    }

    /** The hypervisor recovers the commands that were sent, exactly when every string length fits in a word. */
    lemma {:induction false} Recovered()
      requires Valid()
      ensures Decode(words) == Some(sent) <==> forall c :: c in sent ==> Fits(c)
    {
      RoundTripIff(sent);
    }

    method Write(w: Word)
      modifies `words
      ensures words == old(words) + [w]
    {
      words := words + [w];
    }

    method WriteString(s: Str)
      modifies `words
      ensures words == old(words) + StringWords(s)
    {
      Write(Truncated(|s|));
      var pos, len := 0, |s|;
      assert s[0..] == s;
      while len > 0
        invariant 0 <= pos == |s| - len && 0 <= len
        invariant words + Chunks(s[pos..]) == old(words) + StringWords(s)
      {
        var chunk := 4;
        if chunk > len {
          chunk := len;
        }
        Write(Pack(s[pos..pos + chunk]));
        pos, len := pos + chunk, len - chunk;
      }
    }

    /** A command has been written behind the others. */
    ghost method Append(c: Command)
      requires words == EncodeAll(sent) + Encode(c)
      modifies `sent
      ensures Sent(old(sent), c)
    {
      EncodeAppend(sent, c);
      sent := sent + [c];
    }

    method Connect()
      requires Valid()
      modifies this
      ensures Sent(old(sent), Command.Connect)
    {
      Write(CONNECT);
      EncodeNoString(Command.Connect);
      Append(Command.Connect);
    }

    method Disconnect()
      requires Valid()
      modifies this
      ensures Sent(old(sent), Command.Disconnect)
    {
      Write(DISCONNECT);
      EncodeNoString(Command.Disconnect);
      Append(Command.Disconnect);
    }

    method EdfiContextSet(name: Str, context: Word, ptrOffset: Word)
      requires Valid()
      modifies this
      ensures Sent(old(sent), Command.EdfiContextSet(context, ptrOffset, name))
    {
      Write(EDFI_CONTEXT_SET);
      Write(context);
      Write(ptrOffset);
      assert words == old(words) + [EDFI_CONTEXT_SET, context, ptrOffset];
      WriteString(name);
      EncodeOneString(old(words), Command.EdfiContextSet(context, ptrOffset, name), name);
      Append(Command.EdfiContextSet(context, ptrOffset, name));
    }

    method EdfiDumpStats(message: Str)
      requires Valid()
      modifies this
      ensures Sent(old(sent), Command.EdfiDumpStats(message))
    {
      Write(EDFI_DUMP_STATS);
      WriteString(message);
      EncodeOneString(old(words), Command.EdfiDumpStats(message), message);
      Append(Command.EdfiDumpStats(message));
    }

    method EdfiDumpStatsModule(name: Str, message: Str)
      requires Valid()
      modifies this
      ensures Sent(old(sent), Command.EdfiDumpStatsModule(name, message))
    {
      Write(EDFI_DUMP_STATS_MODULE);
      WriteString(name);
      WriteString(message);
      EncodeTwoStrings(old(words), Command.EdfiDumpStatsModule(name, message), name, message);
      Append(Command.EdfiDumpStatsModule(name, message));
    }

    /** `reply` is what the hypervisor answers. */
    method EdfiFaultIndexGet(name: Str, reply: Word) returns (index: Word)
      requires Valid()
      modifies this
      ensures Sent(old(sent), Command.EdfiFaultIndexGet(name)) && index == reply
    {
      Write(EDFI_FAULTINDEX_GET);
      WriteString(name);
      EncodeOneString(old(words), Command.EdfiFaultIndexGet(name), name);
      Append(Command.EdfiFaultIndexGet(name));
      index := reply;
    }

    method Fault(name: Str, bbIndex: Word)
      requires Valid()
      modifies this
      ensures Sent(old(sent), Command.Fault(bbIndex, name))
    {
      Write(FAULT);
      Write(bbIndex);
      assert words == old(words) + [FAULT, bbIndex];
      WriteString(name);
      EncodeOneString(old(words), Command.Fault(bbIndex, name), name);
      Append(Command.Fault(bbIndex, name));
    }

    method MagicRegister(namePtr: Word)
      requires Valid()
      modifies this
      ensures Sent(old(sent), MagicContextSet(TEST_MODULE_LENGTH, namePtr, 0xdeadbeef, 0x1337))
    {
      Write(MAGIC_CONTEXT_SET);
      Write(TEST_MODULE_LENGTH);
      Write(namePtr);
      Write(0xdeadbeef);
      Write(0x1337);
      EncodeNoString(MagicContextSet(TEST_MODULE_LENGTH, namePtr, 0xdeadbeef, 0x1337));
      Append(MagicContextSet(TEST_MODULE_LENGTH, namePtr, 0xdeadbeef, 0x1337));
    }

    method MagicStModule(namePtr: Word)
      requires Valid()
      modifies this
      ensures Sent(old(sent), Command.MagicSt(TEST_MODULE_LENGTH, namePtr))
    {
      Write(MAGIC_ST);
      Write(TEST_MODULE_LENGTH);
      Write(namePtr);
      EncodeNoString(Command.MagicSt(TEST_MODULE_LENGTH, namePtr));
      Append(Command.MagicSt(TEST_MODULE_LENGTH, namePtr));
    }

    method MagicSt()
      requires Valid()
      modifies this
      ensures Sent(old(sent), MagicStAll)
    {
      Write(MAGIC_ST_ALL);
      EncodeNoString(MagicStAll);
      Append(MagicStAll);
    }

    method Nop(reply: Word) returns (ok: bool)
      requires Valid()
      modifies this
      ensures Sent(old(sent), Command.Nop) && (ok <==> reply == NOP_REPLY)
    {
      Write(NOP);
      EncodeNoString(Command.Nop);
      Append(Command.Nop);
      ok := reply == NOP_REPLY;
    }

    method PrintText(text: Str)
      requires Valid()
      modifies this
      ensures Sent(old(sent), Command.Print(text))
    {
      Write(PRINT);
      WriteString(text);
      EncodeOneString(old(words), Command.Print(text), text);
      Append(Command.Print(text));
    }

    method Quit()
      requires Valid()
      modifies this
      ensures Sent(old(sent), Command.Quit)
    {
      Write(QUIT);
      EncodeNoString(Command.Quit);
      Append(Command.Quit);
    }

    method ReleaseCr3(cr3: Word)
      requires Valid()
      modifies this
      ensures Sent(old(sent), Command.ReleaseCr3(cr3))
    {
      Write(RELEASE_CR3);
      Write(cr3);
      EncodeNoString(Command.ReleaseCr3(cr3));
      Append(Command.ReleaseCr3(cr3));
    }

    method SetCr3(cr3: Word)
      requires Valid()
      modifies this
      ensures Sent(old(sent), Command.SetCr3(cr3))
    {
      Write(SET_CR3);
      Write(cr3);
      EncodeNoString(Command.SetCr3(cr3));
      Append(Command.SetCr3(cr3));
    }
  }
}
