/** The simulated Modbus server: one request at a time against a table of 16-bit registers, measured against the
    history of writes (sections 6.3, 6.6 and 6.12 of MODBUS Application Protocol Specification V1.1b3). */
module Modbus {
  import opened Sequences

  type Word = x: int | 0 <= x < 65536

  const ILLEGAL_FUNCTION: byte := 1
  const ILLEGAL_ADDRESS: byte := 2
  const ILLEGAL_VALUE: byte := 3

  // --- words on the wire ---

  function Pack(ws: seq<Word>): (s: seq<byte>)
    ensures |s| == 2 * |ws|
  {
    if ws == [] then [] else [ws[0] / 256, ws[0] % 256] + Pack(ws[1..])
  }

  function Unpack(s: seq<byte>): (ws: seq<Word>)
    requires |s| % 2 == 0
    ensures |ws| == |s| / 2
  {
    if s == [] then [] else [(s[0] as int) * 256 + s[1] as int] + Unpack(s[2..])
  }

  lemma {:induction false} UnpackPack(ws: seq<Word>)
    ensures Unpack(Pack(ws)) == ws
  {
    if ws != [] {
      UnpackPack(ws[1..]);
      assert Pack(ws)[2..] == Pack(ws[1..]);
      assert [ws[0]] + ws[1..] == ws;
    }
  }

  function Field(pdu: seq<byte>, i: nat): Word
    requires i + 1 < |pdu|
  {
    (pdu[i] as int) * 256 + pdu[i + 1] as int
  }

  // --- requests ---

  datatype Request =
    | Read(start: nat, qty: nat)
    | WriteOne(addr: nat, value: Word)
    | WriteMany(start: nat, values: seq<Word>)
    | Short      // a block write that announces more words than it carries
    | Unknown(function_: byte)
    | Empty

  function Parse(pdu: seq<byte>): Request {
    if pdu == [] then Empty
    else if pdu[0] == 3 && |pdu| >= 5 then Read(Field(pdu, 1), Field(pdu, 3))
    else if pdu[0] == 6 && |pdu| >= 5 then WriteOne(Field(pdu, 1), Field(pdu, 3))
    else if pdu[0] == 16 && |pdu| >= 6 then
      var qty := Field(pdu, 3);
      if |pdu| < 6 + qty * 2 then Short else WriteMany(Field(pdu, 1), Unpack(pdu[6..6 + qty * 2]))
    else Unknown(pdu[0])
  }

  /** What a client sends. The byte count in front of a block of words is its own business: the server skips it. */
  function Ask(r: Request, byteCount: byte): seq<byte>
    requires r.Read? ==> r.start < 65536 && r.qty < 65536
    requires r.WriteOne? ==> r.addr < 65536
    requires r.WriteMany? ==> r.start < 65536 && |r.values| < 65536
    requires r.Read? || r.WriteOne? || r.WriteMany?
  {
    match r
    case Read(start, qty) => [3] + Pack([start, qty])
    case WriteOne(addr, value) => [6] + Pack([addr, value])
    case WriteMany(start, values) => [16] + Pack([start, |values|]) + [byteCount] + Pack(values)
  }

  lemma TwoFields(a: Word, b: Word, function_: byte, rest: seq<byte>)
    ensures var pdu := [function_] + Pack([a, b]) + rest; Field(pdu, 1) == a && Field(pdu, 3) == b
  {
    var both: seq<Word>, second: seq<Word> := [a, b], [b];
    assert both[1..] == second && second[1..] == [];
    assert Pack(both) == [a / 256, a % 256] + ([b / 256, b % 256] + []);
  }

  lemma ReadParses(start: Word, qty: Word)
    ensures Parse([3] + Pack([start, qty])) == Read(start, qty)
  {
    TwoFields(start, qty, 3, []);
    assert [3] + Pack([start, qty]) + [] == [3] + Pack([start, qty]);
  }

  lemma WriteOneParses(addr: Word, value: Word)
    ensures Parse([6] + Pack([addr, value])) == WriteOne(addr, value)
  {
    TwoFields(addr, value, 6, []);
    assert [6] + Pack([addr, value]) + [] == [6] + Pack([addr, value]);
  }

  lemma BlockParses(pdu: seq<byte>, block: seq<byte>)
    requires |pdu| >= 6 && pdu[0] == 16 && |block| == 2 * Field(pdu, 3) && pdu[6..] == block
    ensures Parse(pdu) == WriteMany(Field(pdu, 1), Unpack(block))
  {
    assert pdu[6..6 + |block|] == block;
  }

  lemma {:induction false} WriteManyParses(start: Word, values: seq<Word>, byteCount: byte)
    requires |values| < 65536
    ensures Parse([16] + Pack([start, |values|]) + [byteCount] + Pack(values)) == WriteMany(start, values)
  {
    var head := [16] + Pack([start, |values|]) + [byteCount];
    var pdu := head + Pack(values);
    TwoFields(start, |values|, 16, [byteCount] + Pack(values));
    assert pdu == [16] + Pack([start, |values|]) + ([byteCount] + Pack(values));
    DropPrefix(pdu, head, Pack(values));
    BlockParses(pdu, Pack(values));
    UnpackPack(values);
  }

  lemma RequestRoundTrip(r: Request, byteCount: byte)
    requires r.Read? ==> r.start < 65536 && r.qty < 65536
    requires r.WriteOne? ==> r.addr < 65536
    requires r.WriteMany? ==> r.start < 65536 && |r.values| < 65536
    requires r.Read? || r.WriteOne? || r.WriteMany?
    ensures Parse(Ask(r, byteCount)) == r
  {
    match r
    case Read(start, qty) => ReadParses(start, qty);
    case WriteOne(addr, value) => WriteOneParses(addr, value);
    case WriteMany(start, values) => WriteManyParses(start, values, byteCount);
  }

  // --- the table ---

  /** The words a request puts into a table of `n` registers, and from where: none if it is refused. */
  function Written(n: nat, r: Request): (nat, seq<Word>) {
    match r
    case WriteOne(addr, value) => if addr < n then (addr, [value]) else (0, [])
    case WriteMany(start, values) => if start + |values| <= n then (start, values) else (0, [])
    case _ => (0, [])
  }

  function Store(regs: seq<Word>, r: Request): (s: seq<Word>)
    ensures |s| == |regs|
  {
    var (start, values) := Written(|regs|, r);
    regs[..start] + values + regs[start + |values|..]
  }

  /** What a request leaves in a register, from the request alone: its word where a granted write reaches, and what was
      there before everywhere else. */
  lemma StoreTells(regs: seq<Word>, r: Request, i: nat)
    requires i < |regs|
    ensures Store(regs, r)[i] ==
              match r
              case WriteOne(addr, value) => if i == addr then value else regs[i]
              case WriteMany(start, values) =>
                if start <= i < start + |values| <= |regs| then values[i - start] else regs[i]
              case _ => regs[i]
  {
  }

  function StoreAll(regs: seq<Word>, history: seq<Request>): (s: seq<Word>)
    ensures |s| == |regs|
  {
    if history == [] then regs else Store(StoreAll(regs, history[..|history| - 1]), history[|history| - 1])
  }

  /** The last word any request of the history wrote to a register, or what it held at first. */
  function Latest(regs: seq<Word>, history: seq<Request>, a: nat): Word
    requires a < |regs|
    decreases |history|
  {
    if history == [] then regs[a]
    else
      var (start, values) := Written(|regs|, history[|history| - 1]);
      if start <= a < start + |values| then values[a - start] else Latest(regs, history[..|history| - 1], a)
  }

  lemma {:induction false} RegisterIsLatest(regs: seq<Word>, history: seq<Request>, a: nat)
    requires a < |regs|
    ensures StoreAll(regs, history)[a] == Latest(regs, history, a)
    decreases |history|
  {
    if history != [] {
      RegisterIsLatest(regs, history[..|history| - 1], a);
    }
  }

  // --- answers ---

  function Refusal(function_: byte, code: byte): seq<byte> {
    [if function_ < 128 then function_ + 128 else function_, code]
  }

  /** No answer means that building it raises: two bytes per register do not fit the byte that counts them. */
  function Answer(regs: seq<Word>, pdu: seq<byte>): Option<seq<byte>> {
    match Parse(pdu)
    case Empty => Some(Refusal(0, ILLEGAL_FUNCTION))
    case Read(start, qty) =>
      if start + qty > |regs| then Some(Refusal(3, ILLEGAL_ADDRESS))
      else if qty * 2 > 255 then None
      else Some([3, qty * 2] + Pack(regs[start..start + qty]))
    case WriteOne(addr, _) => if addr >= |regs| then Some(Refusal(6, ILLEGAL_ADDRESS)) else Some(pdu[..5])
    case Short => Some(Refusal(16, ILLEGAL_VALUE))
    case WriteMany(start, values) =>
      if start + |values| > |regs| then Some(Refusal(16, ILLEGAL_ADDRESS))
      else Some([16] + pdu[1..5])
    case Unknown(f) => Some(Refusal(f, ILLEGAL_FUNCTION))
  }

  /** What the server has to refuse: no request it knows, one that carries less than it announces, or one that reaches
      beyond the table. */
  predicate MustRefuse(n: nat, r: Request) {
    match r
    case Read(start, qty) => start + qty > n
    case WriteOne(addr, _) => addr >= n
    case WriteMany(start, values) => start + |values| > n
    case Short => true
    case Unknown(_) => true
    case Empty => true
  }

  predicate Refused(answer: seq<byte>) {
    answer != [] && answer[0] >= 128
  }

  /** Every request is answered unless it reads more than 127 registers that all exist; so a table of at most 127
      always answers. */
  lemma WhenAnswered(regs: seq<Word>, pdu: seq<byte>)
    ensures Answer(regs, pdu) == None <==>
            Parse(pdu).Read? && Parse(pdu).qty > 127 && Parse(pdu).start + Parse(pdu).qty <= |regs|
    ensures |regs| <= 127 ==> Answer(regs, pdu).Some?
  {
  }

  /** The exception bit is set exactly on what has to be refused, and then nothing has changed; an answer without it
      repeats the function code. */
  lemma RefusalsChangeNothing(regs: seq<Word>, pdu: seq<byte>)
    requires Answer(regs, pdu).Some?
    ensures var a := Answer(regs, pdu).value;
            a != [] && (Refused(a) ==> Store(regs, Parse(pdu)) == regs)
            && (Refused(a) <==> MustRefuse(|regs|, Parse(pdu)))
            && (!Refused(a) <==> pdu != [] && a[0] == pdu[0] && pdu[0] in {3, 6, 16})
            && (Refused(a) && pdu != [] ==> a[0] == if pdu[0] < 128 then pdu[0] + 128 else pdu[0])
  {
    if Refused(Answer(regs, pdu).value) {
      assert Written(|regs|, Parse(pdu)).1 == [];
    }
  }

  /** The bytes of every answer that is no read: a granted write repeats the head of its request, a refusal carries the
      function code with the exception bit and the reason. */
  lemma AnswerBytes(regs: seq<Word>, pdu: seq<byte>)
    ensures var n, a := |regs|, Answer(regs, pdu);
            match Parse(pdu)
            case Read(start, qty) => start + qty > n ==> a == Some([0x83, 2])
            case WriteOne(addr, _) => a == Some(if addr < n then pdu[..5] else [0x86, 2])
            case WriteMany(start, values) => a == Some(if start + |values| <= n then pdu[..5] else [0x90, 2])
            case Short => a == Some([0x90, 3])
            case Unknown(f) => a == Some([if f < 128 then f + 128 else f, 1])
            case Empty => a == Some([0x80, 1])
  {
    if Parse(pdu).WriteMany? {
      assert pdu[..5] == [pdu[0]] + pdu[1..5];
    }
  }

  lemma ReadAnswers(regs: seq<Word>, start: Word, values: seq<Word>)
    requires start + |values| <= |regs| && |values| <= 127 && regs[start..start + |values|] == values
    ensures Answer(regs, Ask(Read(start, |values|), 0)) == Some([3, 2 * |values|] + Pack(values))
  {
    hide Pack;
    RequestRoundTrip(Read(start, |values|), 0);
    hide Ask, Parse;
    GrantedRead(regs, Ask(Read(start, |values|), 0), start, |values|);
  }

  lemma GrantedRead(regs: seq<Word>, pdu: seq<byte>, start: nat, qty: nat)
    requires Parse(pdu) == Read(start, qty) && start + qty <= |regs| && qty <= 127
    ensures Answer(regs, pdu) == Some([3, 2 * qty] + Pack(regs[start..start + qty]))
  {
    hide Parse, Pack;
  }

  /** A write and a read of the same words, as a client sends them: the read answers what was written. */
  lemma WriteThenRead(regs: seq<Word>, write: Request, start: Word, values: seq<Word>, byteCount: byte)
    requires start + |values| <= |regs| && |values| <= 127
    requires write == WriteMany(start, values) || (|values| == 1 && write == WriteOne(start, values[0]))
    ensures Answer(Store(regs, Parse(Ask(write, byteCount))), Ask(Read(start, |values|), 0))
            == Some([3, 2 * |values|] + Pack(values))
  {
    RequestRoundTrip(write, byteCount);
    ReadsBack(regs, write, start, values);
    ReadAnswers(Store(regs, write), start, values);
  }

  /** On the wire words go high byte first. */
  lemma WireExample()
    ensures Ask(WriteOne(0, 300), 0) == [6, 0, 0, 1, 44]
    ensures Ask(WriteMany(1, [300, 5]), 4) == [16, 0, 1, 0, 2, 4, 1, 44, 0, 5]
    ensures Ask(Read(0, 1), 0) == [3, 0, 0, 0, 1]
  {
    hide Pack;
    TwoBytes(0, 300);
    TwoBytes(0, 1);
    TwoBytes(1, 2);
    TwoBytes(300, 5);
  }

  lemma ReadExample(regs: seq<Word>)
    requires |regs| == 1 && regs[0] == 300
    ensures Answer(regs, [3, 0, 0, 0, 1]) == Some([3, 2, 1, 44])
  {
    var pdu := [3, 0, 0, 0, 1];
    TwoBytes(0, 1);
    ReadParses(0, 1);
    assert [3] + Pack([0, 1]) == pdu;
    assert Pack(regs) == [1, 44] + [] && regs[0..1] == regs;
    hide Parse, Pack, Answer;
    GrantedRead(regs, pdu, 0, 1);
    assert [3, 2 * 1] + Pack(regs) == [3, 2, 1, 44];
  }

  lemma TwoBytes(a: Word, b: Word)
    ensures Pack([a, b]) == [a / 256, a % 256, b / 256, b % 256]
  {
    var both: seq<Word>, second: seq<Word> := [a, b], [b];
    assert both[1..] == second && second[1..] == [];
  }

  lemma ReadsBack(regs: seq<Word>, r: Request, start: nat, values: seq<Word>)
    requires start + |values| <= |regs|
    requires r == WriteMany(start, values) || (|values| == 1 && r == WriteOne(start, values[0]))
    ensures Store(regs, r)[start..start + |values|] == values
  {
    forall i | 0 <= i < |values| ensures Store(regs, r)[start + i] == values[i] {
      StoreTells(regs, r, start + i);
    }
  }

  /** A granted read, after any history: the last words written, in order. */
  lemma ReadReturnsLatest(regs: seq<Word>, history: seq<Request>, start: nat, qty: nat, pdu: seq<byte>)
    requires Parse(pdu) == Read(start, qty) && start + qty <= |regs| && qty <= 127
    ensures var a := Answer(StoreAll(regs, history), pdu);
            a.Some? && |a.value| == 2 + 2 * qty && a.value[..2] == [3, 2 * qty]
            && Unpack(a.value[2..]) == seq(qty, i requires 0 <= i < qty => Latest(regs, history, start + i))
  {
    hide Parse, Pack, Unpack, Latest, Store;
    var now := StoreAll(regs, history);
    hide StoreAll;
    GrantedRead(now, pdu, start, qty);
    hide Answer;
    var read := now[start..start + qty];
    assert ([3, 2 * qty] + Pack(read))[2..] == Pack(read);
    UnpackPack(read);
    forall i | 0 <= i < |read| ensures read[i] == Latest(regs, history, start + i) {
      RegisterIsLatest(regs, history, start + i);
    }
  }

  class Server {
    var registers: seq<Word>

    constructor (registers: seq<Word>)
      ensures this.registers == registers
    {
      this.registers := registers;
    }

    method HandlePdu(pdu: seq<byte>) returns (r: Option<seq<byte>>)
      modifies this
      ensures r == Answer(old(registers), pdu) && registers == Store(old(registers), Parse(pdu))
    {
      if pdu == [] {
        return Some([0x80, ILLEGAL_FUNCTION]);
      }
      var fc := pdu[0];
      if fc == 3 && |pdu| >= 5 {
        var start, qty := Field(pdu, 1), Field(pdu, 3);
        if start + qty > |registers| {
          return Some([0x83, ILLEGAL_ADDRESS]);
        }
        if qty * 2 > 255 {
          return None;
        }
        return Some([3, qty * 2] + Pack(registers[start..start + qty]));
      }
      if fc == 6 && |pdu| >= 5 {
        var addr, value := Field(pdu, 1), Field(pdu, 3);
        if addr >= |registers| {
          return Some([0x86, ILLEGAL_ADDRESS]);
        }
        registers := registers[addr := value];
        return Some(pdu[..5]);
      }
      if fc == 16 && |pdu| >= 6 {
        var start, qty := Field(pdu, 1), Field(pdu, 3);
        if |pdu| < 6 + qty * 2 {
          return Some([0x90, ILLEGAL_VALUE]);
        }
        if start + qty > |registers| {
          return Some([0x90, ILLEGAL_ADDRESS]);
        }
        registers := registers[..start] + Unpack(pdu[6..6 + qty * 2]) + registers[start + qty..];
        r := Some([16] + Pack([start, qty]));
        TwoWords(pdu);
        return;
      }
      r := Some([if fc < 128 then fc + 128 else fc, ILLEGAL_FUNCTION]);
    }
  }

  lemma TwoWords(pdu: seq<byte>)
    requires |pdu| >= 5
    ensures Pack([Field(pdu, 1), Field(pdu, 3)]) == pdu[1..5]
  {
    var both: seq<Word>, second: seq<Word> := [Field(pdu, 1), Field(pdu, 3)], [Field(pdu, 3)];
    assert both[1..] == second && second[1..] == [];
    assert Pack(second) == [pdu[3], pdu[4]] + [];
  }
}
