/** PM4 command buffers: splitting words into packets, and dispatching packets with
    indirect buffers nested in them. */
module Pm4 {

  import opened Common
  import opened ContextTracker

  datatype Kind = Type0 | Type2 | Type3

  datatype Packet = Packet(kind: Kind, opcode: nat, payload: seq<Word>)

  datatype ParseError = TruncatedType0 | TruncatedType3 | Unsupported

  datatype Parsed = Packets(packets: seq<Packet>) | Malformed(error: ParseError)

  // ---- Headers ---------------------------------------------------------------------------

  function TypeBits(header: Word): nat {
    header / 0x4000_0000
  }

  function Count(header: Word): nat {
    header % 0x4000 + 1
  }

  function Opcode(header: Word): nat {
    header / 0x1_0000 % 256
  }

  // ---- Parsing -----------------------------------------------------------------------------

  function Prepend(p: Packet, rest: Parsed): Parsed {
    if rest.Packets? then Packets([p] + rest.packets) else rest
  }

  // How many words the first packet takes, when it is complete and supported.
  function FirstSize(words: seq<Word>): (n: nat)
    requires words != []
    ensures n >= 1
  {
    if TypeBits(words[0]) == 2 then 1 else 1 + Count(words[0])
  }

  predicate FirstFits(words: seq<Word>) {
    words != [] && FirstSize(words) <= |words| && TypeBits(words[0]) != 1
  }

  function FirstPacket(words: seq<Word>): Packet
    requires FirstFits(words)
  {
    if TypeBits(words[0]) == 2 then Packet(Type2, 0, [])
    else if TypeBits(words[0]) == 0 then Packet(Type0, 0, words[1..FirstSize(words)])
    else Packet(Type3, Opcode(words[0]), words[1..FirstSize(words)])
  }

  function FirstError(words: seq<Word>): ParseError
    requires words != [] && !FirstFits(words)
  {
    if FirstSize(words) <= |words| then Unsupported
    else if TypeBits(words[0]) == 0 then TruncatedType0 else TruncatedType3
  }

  function Parse(words: seq<Word>): Parsed
    decreases |words|
  {
    if words == [] then Packets([])
    else if !FirstFits(words) then Malformed(FirstError(words))
    else Prepend(FirstPacket(words), Parse(words[FirstSize(words)..]))
  }

  function Joined(packets: seq<Packet>, rest: Parsed): Parsed {
    if rest.Packets? then Packets(packets + rest.packets) else rest
  }

  lemma JoinPrepend(packets: seq<Packet>, p: Packet, rest: Parsed)
    ensures Joined(packets, Prepend(p, rest)) == Joined(packets + [p], rest)
    ensures Joined([p] + packets, rest) == Prepend(p, Joined(packets, rest))
  {
    if rest.Packets? {
      assert packets + ([p] + rest.packets) == (packets + [p]) + rest.packets;
      assert ([p] + packets) + rest.packets == [p] + (packets + rest.packets);
    }
  }

  // One turn of the loop, on the words still to be read.
  lemma ParseFirst(words: seq<Word>, index: nat, packets: seq<Packet>)
    requires index < |words|
    ensures !FirstFits(words[index..]) ==> Joined(packets, Parse(words[index..])) == Malformed(FirstError(words[index..]))
    ensures FirstFits(words[index..]) ==>
              && index + FirstSize(words[index..]) <= |words|
              && Joined(packets, Parse(words[index..])) ==
                 Joined(packets + [FirstPacket(words[index..])], Parse(words[index + FirstSize(words[index..])..]))
  {
    var rest := words[index..];
    if FirstFits(rest) {
      assert rest[FirstSize(rest)..] == words[index + FirstSize(rest)..];
      assert Parse(rest) == Prepend(FirstPacket(rest), Parse(rest[FirstSize(rest)..]));
      JoinPrepend(packets, FirstPacket(rest), Parse(rest[FirstSize(rest)..]));
    }
  }

  /** The parsing loop. */
  method ParseViews(words: seq<Word>) returns (result: Parsed)
    ensures result == Parse(words)
  {
    hide Parse, TypeBits, Count, Opcode;
    var packets: seq<Packet> := [];
    var index := 0;
    assert words[0..] == words;
    while index < |words|
      invariant index <= |words|
      invariant Parse(words) == Joined(packets, Parse(words[index..]))
    {
      ParseFirst(words, index, packets);
      ghost var rest := words[index..];
      var header := words[index];
      assert rest[0] == header;
      index := index + 1;
      if TypeBits(header) == 2 {
        packets := packets + [Packet(Type2, 0, [])];
      } else {
        var count := Count(header);
        if count > |words| - index {
          return Malformed(if TypeBits(header) == 0 then TruncatedType0 else TruncatedType3);
        }
        assert rest[1..1 + count] == words[index..index + count];
        if TypeBits(header) == 0 {
          packets := packets + [Packet(Type0, 0, words[index..index + count])];
        } else if TypeBits(header) == 3 {
          packets := packets + [Packet(Type3, Opcode(header), words[index..index + count])];
        } else {
          TypeInRange(header);
          return Malformed(Unsupported);
        }
        index := index + count;
      }
    }
    EmptyParses(words, index, packets);
    return Packets(packets);
  }

  lemma TypeInRange(header: Word)
    ensures TypeBits(header) < 4
  {
  }

  lemma EmptyParses(words: seq<Word>, index: nat, packets: seq<Packet>)
    requires index == |words|
    ensures Joined(packets, Parse(words[index..])) == Packets(packets)
  {
    assert words[index..] == [];
  }

  lemma FirstOfAppend(a: seq<Word>, b: seq<Word>)
    requires FirstFits(a)
    ensures FirstFits(a + b) && FirstSize(a + b) == FirstSize(a) && FirstPacket(a + b) == FirstPacket(a)
    ensures (a + b)[FirstSize(a)..] == a[FirstSize(a)..] + b
  {
    hide TypeBits, Count, Opcode;
    assert (a + b)[1..FirstSize(a)] == a[1..FirstSize(a)];
  }

  /** Parsing is compositional: behind a buffer that parses, the rest parses as it
      would alone, errors included. */
  lemma {:induction false} ParseAppend(a: seq<Word>, b: seq<Word>)
    requires Parse(a).Packets?
    ensures Parse(a + b) == Joined(Parse(a).packets, Parse(b))
    decreases |a|
  {
    hide FirstSize, FirstPacket;
    if a == [] {
      assert a + b == b;
    } else {
      FirstOfAppend(a, b);
      ParseAppend(a[FirstSize(a)..], b);
      JoinPrepend(Parse(a[FirstSize(a)..]).packets, FirstPacket(a), Parse(b));
    }
  }

  // The words a packet takes.
  function Size(p: Packet): nat {
    1 + |p.payload|
  }

  function SizeOf(packets: seq<Packet>): nat {
    if packets == [] then 0 else Size(packets[0]) + SizeOf(packets[1..])
  }

  // What the writer of a buffer may put into a packet.
  predicate Writable(p: Packet) {
    match p.kind
    case Type0 => p.opcode == 0 && 1 <= |p.payload| <= 0x4000
    case Type2 => p.opcode == 0 && p.payload == []
    case Type3 => p.opcode < 256 && 1 <= |p.payload| <= 0x4000
  }

  function Header(p: Packet): Word
    requires Writable(p)
  {
    match p.kind
    case Type0 => |p.payload| - 1
    case Type2 => 0x8000_0000
    case Type3 => 0xC000_0000 + p.opcode * 0x1_0000 + |p.payload| - 1
  }

  function Written(packets: seq<Packet>): seq<Word>
    requires forall p :: p in packets ==> Writable(p)
  {
    if packets == [] then [] else [Header(packets[0])] + packets[0].payload + Written(packets[1..])
  }

  lemma HeaderParts(p: Packet)
    requires Writable(p)
    ensures TypeBits(Header(p)) == (match p.kind case Type0 => 0 case Type2 => 2 case Type3 => 3)
    ensures !p.kind.Type2? ==> Count(Header(p)) == |p.payload|
    ensures p.kind.Type3? ==> Opcode(Header(p)) == p.opcode
  {
  }

  lemma FirstWritten(p: Packet, rest: seq<Word>)
    requires Writable(p)
    ensures var words := [Header(p)] + p.payload + rest;
            FirstFits(words) && FirstSize(words) == Size(p) && words[Size(p)..] == rest && FirstPacket(words) == p
  {
    HeaderParts(p);
    hide TypeBits, Count, Opcode, Header;
    var words := [Header(p)] + p.payload + rest;
    assert words[0] == Header(p);
    assert words[1..Size(p)] == p.payload;
    assert words[Size(p)..] == rest;
  }

  /** Every buffer written packet by packet parses back to those packets. */
  lemma {:induction false} WrittenParses(packets: seq<Packet>)
    requires forall p :: p in packets ==> Writable(p)
    ensures Parse(Written(packets)) == Packets(packets)
  {
    hide FirstFits, FirstSize, FirstPacket, Header, Writable;
    if packets != [] {
      WrittenParses(packets[1..]);
      FirstWritten(packets[0], Written(packets[1..]));
      assert [packets[0]] + packets[1..] == packets;
    }
  }

  /** A buffer that parses is tiled by its packets, and each of them is writable. */
  lemma {:induction false} ParsedTiles(words: seq<Word>)
    requires Parse(words).Packets?
    ensures SizeOf(Parse(words).packets) == |words|
    ensures forall p :: p in Parse(words).packets ==> Writable(p)
    decreases |words|
  {
    if words != [] {
      var n := FirstSize(words);
      ParsedTiles(words[n..]);
      var p, rest := FirstPacket(words), Parse(words[n..]).packets;
      assert ([p] + rest)[1..] == rest;
    }
  }

  // ---- Dispatching ---------------------------------------------------------------------------

  const MAX_DEPTH := 32
  const DISPATCH_DIRECT := 0x15
  const DRAW_INDEX_2 := 0x27
  const DRAW_INDEX_AUTO := 0x2D
  const INDIRECT_BUFFER := 0x3F
  const EVENT_WRITE := 0x46
  const SET_CONTEXT_REG := 0x69
  const SET_SH_REG := 0x76

  // The word at a byte address; it does not change during a submission.
  type Memory = nat -> Word

  // `device` stands for everything behind Vulkan.
  datatype State<D> = State(registers: map<Word, Word>, tracker: Tracker, device: D)

  datatype DispatchError = TooDeep | TruncatedPacket | BadRange | BadChild(error: ParseError) | DeviceFailed

  datatype Outcome<D> = Done(state: State<D>) | Stopped(state: State<D>, error: DispatchError)

  // Draws, compute dispatches, shader translation and cache invalidation: whether
  // they succeed, and the device afterwards.
  type Device<!D> = (Packet, State<D>) -> (bool, D)

  predicate IsIndirect(p: Packet) {
    p.kind.Type3? && p.opcode == INDIRECT_BUFFER
  }

  function SetPairs<D>(s: State<D>, payload: seq<Word>): State<D>
    decreases |payload|
  {
    if |payload| < 2 then s
    else SetPairs(s.(registers := s.registers[payload[0] := payload[1]],
                     tracker := SetContextReg(s.tracker, payload[0], payload[1])), payload[2..])
  }

  function OnDevice<D>(device: Device<D>, s: State<D>, p: Packet): Outcome<D> {
    var (ok, d) := device(p, s);
    if ok then Done(s.(device := d)) else Stopped(s.(device := d), DeviceFailed)
  }

  function Cleaned<D>(o: Outcome<D>): Outcome<D> {
    if o.Done? then Done(o.state.(tracker := o.state.tracker.(dirty := false))) else o
  }

  // Every packet but an indirect buffer.
  function Leaf<D>(device: Device<D>, s: State<D>, p: Packet): Outcome<D> {
    if !p.kind.Type3? then Done(s)
    else if p.opcode == EVENT_WRITE then Done(s.(device := device(p, s).1))
    else if p.opcode == SET_CONTEXT_REG then Done(SetPairs(s, p.payload))
    else if p.opcode == SET_SH_REG then
      (if |p.payload| < 3 then Done(s)
       else OnDevice(device, s.(registers := s.registers[p.payload[0] := p.payload[1]],
                                tracker := SetShReg(s.tracker, p.payload[0], p.payload[1])), p))
    else if p.opcode == DRAW_INDEX_2 || p.opcode == DRAW_INDEX_AUTO then
      (if p.payload == [] then Stopped(s, TruncatedPacket) else Cleaned(OnDevice(device, s, p)))
    else if p.opcode == DISPATCH_DIRECT then
      (if |p.payload| < 3 then Stopped(s, TruncatedPacket) else OnDevice(device, s, p))
    else Done(s)
  }

  function Address(p: Packet): nat
    requires |p.payload| >= 2
  {
    (p.payload[0] as int) + (p.payload[1] as int) * 0x1_0000_0000
  }

  function Words(p: Packet): nat {
    if |p.payload| >= 3 then p.payload[2] else 0
  }

  function Fetch(memory: Memory, address: nat, count: nat): seq<Word> {
    seq(count, i requires 0 <= i < count => memory(address + 4 * i))
  }

  // Depth first, then packets left: every chain of buffers ends, whatever the
  // memory holds.
  function Dispatch<D>(memory: Memory, device: Device<D>, s: State<D>, p: Packet, depth: nat): Outcome<D>
    requires depth <= MAX_DEPTH + 1
    decreases MAX_DEPTH + 1 - depth, 0
  {
    if depth > MAX_DEPTH then Stopped(s, TooDeep)
    else if !IsIndirect(p) then Leaf(device, s, p)
    else if |p.payload| < 2 then Stopped(s, TruncatedPacket)
    else if Address(p) == 0 || Words(p) == 0 then Stopped(s, BadRange)
    else
      match Parse(Fetch(memory, Address(p), Words(p)))
      case Malformed(e) => Stopped(s, BadChild(e))
      case Packets(child) => DispatchAll(memory, device, s, child, depth + 1)
  }

  function DispatchAll<D>(memory: Memory, device: Device<D>, s: State<D>, packets: seq<Packet>, depth: nat): Outcome<D>
    requires depth <= MAX_DEPTH + 1
    decreases MAX_DEPTH + 1 - depth, |packets|
  {
    if packets == [] then Done(s)
    else
      match Dispatch(memory, device, s, packets[0], depth)
      case Done(t) => DispatchAll(memory, device, t, packets[1..], depth)
      case Stopped(t, e) => Stopped(t, e)
  }

  // ---- Expanding indirect buffers in place -----------------------------------------------------

  // The buffer with every indirect packet replaced by the buffer it points to, if
  // all of them can be followed.
  function Flatten(memory: Memory, words: seq<Word>, depth: nat): Option<seq<Word>>
    requires depth <= MAX_DEPTH + 1 && Parse(words).Packets?
    decreases MAX_DEPTH + 1 - depth, |words|
  {
    if words == [] then Some([])
    else if depth > MAX_DEPTH then None
    else
      var first := FlatFirst(memory, words, depth);
      var rest := Flatten(memory, words[FirstSize(words)..], depth);
      if first.None? || rest.None? then None else Some(first.value + rest.value)
  }

  function FlatFirst(memory: Memory, words: seq<Word>, depth: nat): Option<seq<Word>>
    requires depth <= MAX_DEPTH && words != [] && Parse(words).Packets?
    decreases MAX_DEPTH + 1 - depth, 0
  {
    var p := FirstPacket(words);
    if !IsIndirect(p) then Some(words[..FirstSize(words)])
    else if |p.payload| < 2 || Address(p) == 0 || Words(p) == 0 then None
    else if Parse(Fetch(memory, Address(p), Words(p))).Malformed? then None
    else Flatten(memory, Fetch(memory, Address(p), Words(p)), depth + 1)
  }

  // Dispatching packets none of which is indirect.
  function LeafAll<D>(device: Device<D>, s: State<D>, packets: seq<Packet>): Outcome<D>
    decreases |packets|
  {
    if packets == [] then Done(s)
    else
      match Leaf(device, s, packets[0])
      case Done(t) => LeafAll(device, t, packets[1..])
      case Stopped(t, e) => Stopped(t, e)
  }

  predicate NoIndirect(packets: seq<Packet>) {
    forall p :: p in packets ==> !IsIndirect(p)
  }

  lemma {:induction false} LeafAppend<D>(device: Device<D>, s: State<D>, a: seq<Packet>, b: seq<Packet>)
    ensures LeafAll(device, s, a + b) ==
            match LeafAll(device, s, a) { case Done(t) => LeafAll(device, t, b) case Stopped(t, e) => Stopped(t, e) }
    decreases |a|
  {
    hide Leaf;
    if a == [] {
      assert a + b == b;
    } else {
      assert (a + b)[1..] == a[1..] + b;
      match Leaf(device, s, a[0])
      case Done(t) => LeafAppend(device, t, a[1..], b);
      case Stopped(_, _) =>
    }
  }

  // What holds between a buffer and its expansion.
  ghost predicate Matches<D>(device: Device<D>, s: State<D>, nested: Outcome<D>, flat: Option<seq<Word>>) {
    && (nested.Done? ==> flat.Some?)
    && (flat.Some? ==> Parse(flat.value).Packets? && NoIndirect(Parse(flat.value).packets) &&
                       nested == LeafAll(device, s, Parse(flat.value).packets))
  }

  lemma FirstMatches<D>(memory: Memory, device: Device<D>, s: State<D>, words: seq<Word>, depth: nat)
    requires depth <= MAX_DEPTH && words != [] && Parse(words).Packets?
    ensures Matches(device, s, Dispatch(memory, device, s, FirstPacket(words), depth), FlatFirst(memory, words, depth))
    decreases MAX_DEPTH + 1 - depth, 0
  {
    hide Leaf;
    var p, n := FirstPacket(words), FirstSize(words);
    if IsIndirect(p) {
      if |p.payload| >= 2 && Address(p) != 0 && Words(p) != 0 {
        var child := Fetch(memory, Address(p), Words(p));
        if Parse(child).Packets? {
          NestedMatches(memory, device, s, child, depth + 1);
        }
      }
    } else {
      OneParses(words);
      OneLeaf(device, s, p);
    }
  }

  lemma OneParses(words: seq<Word>)
    requires FirstFits(words)
    ensures Parse(words[..FirstSize(words)]) == Packets([FirstPacket(words)])
  {
    hide TypeBits, Count, Opcode;
    var n := FirstSize(words);
    var one := words[..n];
    assert one[0] == words[0] && one[1..n] == words[1..n] && one[n..] == [];
    assert FirstFits(one) && FirstPacket(one) == FirstPacket(words);
    assert Parse([]) == Packets([]);
  }

  lemma OneLeaf<D>(device: Device<D>, s: State<D>, p: Packet)
    ensures LeafAll(device, s, [p]) == Leaf(device, s, p)
  {
    hide Leaf;
    assert [p][1..] == [];
  }

  lemma {:induction false} NestedMatches<D>(memory: Memory, device: Device<D>, s: State<D>, words: seq<Word>, depth: nat)
    requires depth <= MAX_DEPTH + 1 && Parse(words).Packets?
    ensures Matches(device, s, DispatchAll(memory, device, s, Parse(words).packets, depth), Flatten(memory, words, depth))
    decreases MAX_DEPTH + 1 - depth, |words|
  {
    hide Leaf, FlatFirst, FirstPacket, FirstSize;
    if words != [] {
      assert Parse(words).packets[0] == FirstPacket(words);
      if depth <= MAX_DEPTH {
        var rest := words[FirstSize(words)..];
        assert Parse(words).packets[1..] == Parse(rest).packets;
        FirstMatches(memory, device, s, words, depth);
        var first := Dispatch(memory, device, s, FirstPacket(words), depth);
        var flat, flatRest := FlatFirst(memory, words, depth), Flatten(memory, rest, depth);
        NestedMatches(memory, device, if first.Done? then first.state else s, rest, depth);
        hide Dispatch;
        if flat.Some? && flatRest.Some? {
          ParseAppend(flat.value, flatRest.value);
          LeafAppend(device, s, Parse(flat.value).packets, Parse(flatRest.value).packets);
        }
      }
    }
  }

  lemma {:induction false} LeavesDispatch<D>(memory: Memory, device: Device<D>, s: State<D>, packets: seq<Packet>)
    requires NoIndirect(packets)
    ensures DispatchAll(memory, device, s, packets, 0) == LeafAll(device, s, packets)
    decreases |packets|
  {
    hide Leaf;
    if packets != [] {
      match Leaf(device, s, packets[0])
      case Done(t) => LeavesDispatch(memory, device, t, packets[1..]);
      case Stopped(_, _) =>
    }
  }

  // A whole submission.
  function Submitted<D>(memory: Memory, device: Device<D>, s: State<D>, words: seq<Word>): Outcome<D> {
    match Parse(words)
    case Malformed(e) => Stopped(s, BadChild(e))
    case Packets(packets) => DispatchAll(memory, device, s, packets, 0)
  }

  /** A submission with nested buffers does what submitting the buffer with all of
      them expanded in place does. It succeeds only if the expansion exists; and
      if it exists, both end in the same state with the same outcome. */
  lemma SubmissionIsFlat<D>(memory: Memory, device: Device<D>, s: State<D>, words: seq<Word>)
    requires Parse(words).Packets?
    ensures var flat := Flatten(memory, words, 0);
            && (flat.Some? ==> Parse(flat.value).Packets? && NoIndirect(Parse(flat.value).packets) &&
                               Submitted(memory, device, s, words) == Submitted(memory, device, s, flat.value))
            && (flat.None? ==> Submitted(memory, device, s, words).Stopped?)
  {
    NestedMatches(memory, device, s, words, 0);
    var flat := Flatten(memory, words, 0);
    if flat.Some? {
      LeavesDispatch(memory, device, s, Parse(flat.value).packets);
    }
  }

  /** A buffer that begins with a jump to itself is cut off by the depth limit, with
      nothing done. */
  lemma {:induction false} SelfReferenceStops<D>(memory: Memory, device: Device<D>, s: State<D>, p: Packet, depth: nat)
    requires depth <= MAX_DEPTH + 1 && IsIndirect(p) && |p.payload| >= 2 && Address(p) != 0 && Words(p) != 0
    requires var own := Parse(Fetch(memory, Address(p), Words(p))); own.Packets? && own.packets != [] && own.packets[0] == p
    ensures Dispatch(memory, device, s, p, depth) == Stopped(s, TooDeep)
    decreases MAX_DEPTH + 1 - depth
  {
    if depth <= MAX_DEPTH {
      SelfReferenceStops(memory, device, s, p, depth + 1);
    }
  }

  /** A jump to a buffer that lies in memory does what the packets of that buffer do one
      level deeper, and a buffer that does not parse gives its error. */
  lemma JumpDispatches<D>(memory: Memory, device: Device<D>, s: State<D>, a: int, child: seq<Word>, depth: nat)
    requires 0 < a < 0x1_0000_0000_0000_0000 && 0 < |child| < 0x1_0000_0000 && depth <= 32
    requires forall i: nat :: i < |child| ==> memory(a + 4 * i) == child[i]
    ensures var p := Packet(Type3, 0x3F, [a % 0x1_0000_0000, a / 0x1_0000_0000, |child|]);
            Dispatch(memory, device, s, p, depth) ==
              match Parse(child) {
                case Malformed(e) => Stopped(s, BadChild(e))
                case Packets(packets) => DispatchAll(memory, device, s, packets, depth + 1)
              }
  {
    hide Parse, DispatchAll;
    var p := Packet(Type3, 0x3F, [a % 0x1_0000_0000, a / 0x1_0000_0000, |child|]);
    assert Address(p) == a && Words(p) == |child|;
    assert Fetch(memory, a, |child|) == child;
  }

  /** Beyond 32 levels nothing is dispatched, whatever the packet. */
  lemma DepthLimit<D>(memory: Memory, device: Device<D>, s: State<D>, p: Packet)
    ensures Dispatch(memory, device, s, p, 33) == Stopped(s, TooDeep)
  {
  }

  /** A jump without its address, to address 0 or without a length is refused. */
  lemma BadJumps<D>(memory: Memory, device: Device<D>, s: State<D>, payload: seq<Word>, depth: nat)
    requires depth <= 32
    ensures var o := Dispatch(memory, device, s, Packet(Type3, 0x3F, payload), depth);
            && (|payload| < 2 ==> o == Stopped(s, TruncatedPacket))
            && (|payload| == 2 ==> o == Stopped(s, BadRange))
            && (|payload| >= 3 && (payload[2] == 0 || payload[0] == payload[1] == 0) ==> o == Stopped(s, BadRange))
  {
    hide Parse, DispatchAll;
  }

  // Packets of the first two kinds, and those with an opcode that is not listed, do
  // nothing; a write event always succeeds.
  lemma SilentPackets<D>(memory: Memory, device: Device<D>, s: State<D>, p: Packet, depth: nat)
    requires depth <= 32
    ensures !p.kind.Type3? || p.opcode !in {0x15, 0x27, 0x2D, 0x3F, 0x46, 0x69, 0x76} ==>
              Dispatch(memory, device, s, p, depth) == Done(s)
    ensures p.kind.Type3? && p.opcode == 0x46 ==>
              Dispatch(memory, device, s, p, depth) == Done(s.(device := device(p, s).1))
  {
  }

  /** A draw that the device carries out leaves the context clean; one that fails, or a
      draw without payload, does not, and ends the submission. Dispatches of compute work
      do not touch the context. */
  lemma DrawsAct<D>(memory: Memory, device: Device<D>, s: State<D>, opcode: nat, payload: seq<Word>, depth: nat)
    requires depth <= 32 && opcode in {0x15, 0x27, 0x2D}
    ensures var p := Packet(Type3, opcode, payload);
            var o, done := Dispatch(memory, device, s, p, depth), device(p, s);
            && (|payload| < (if opcode == 0x15 then 3 else 1) ==> o == Stopped(s, TruncatedPacket))
            && (|payload| >= (if opcode == 0x15 then 3 else 1) ==>
                  o == if !done.0 then Stopped(s.(device := done.1), DeviceFailed)
                       else if opcode == 0x15 then Done(s.(device := done.1))
                       else Done(State(s.registers, s.tracker.(dirty := false), done.1)))
  {
  }

  /** A shader register write needs a third word; it records the register and hands the
      packet to the device. */
  lemma ShaderWriteActs<D>(memory: Memory, device: Device<D>, s: State<D>, payload: seq<Word>, depth: nat)
    requires depth <= 32
    ensures var p := Packet(Type3, 0x76, payload);
            var o := Dispatch(memory, device, s, p, depth);
            && (|payload| < 3 ==> o == Done(s))
            && (|payload| >= 3 ==>
                  && o.state.registers == s.registers[payload[0] := payload[1]]
                  && o.state.tracker.shRegs == (if payload[0] < 0xB000 then s.tracker.shRegs[payload[0] := payload[1]]
                                                else s.tracker.shRegs)
                  && o.state.tracker.regs == s.tracker.regs && (o.Stopped? ==> o.error == DeviceFailed))
  {
  }

  // The i-th pair is the last of the list for its register.
  ghost predicate LastPair(payload: seq<Word>, i: nat) {
    2 * i + 1 < |payload| && forall j: nat :: i < j && 2 * j + 1 < |payload| ==> payload[2 * j] != payload[2 * i]
  }

  ghost predicate SetsRegister(payload: seq<Word>, r: Word) {
    exists i: nat :: 2 * i + 1 < |payload| && payload[2 * i] == r
  }

  lemma SetsMore(payload: seq<Word>, r: Word)
    requires |payload| >= 2
    ensures SetsRegister(payload, r) <==> payload[0] == r || SetsRegister(payload[2..], r)
  {
    var rest := payload[2..];
    if SetsRegister(payload, r) {
      var i: nat :| 2 * i + 1 < |payload| && payload[2 * i] == r;
      if i > 0 { assert rest[2 * (i - 1)] == r; }
    }
    if SetsRegister(rest, r) {
      var i: nat :| 2 * i + 1 < |rest| && rest[2 * i] == r;
      assert payload[2 * (i + 1)] == r;
    }
    if payload[0] == r { assert payload[2 * 0] == r; }
  }

  lemma {:induction false} PairKept<D>(s: State<D>, payload: seq<Word>, r: Word)
    requires !SetsRegister(payload, r)
    ensures var t := SetPairs(s, payload);
            && t.device == s.device && (r in t.registers <==> r in s.registers)
            && (r in s.registers ==> t.registers[r] == s.registers[r])
            && (r < REGISTERS ==> t.tracker.regs[r] == s.tracker.regs[r])
    decreases |payload|
  {
    hide SetsRegister;
    if |payload| >= 2 {
      SetsMore(payload, r);
      var next := s.(registers := s.registers[payload[0] := payload[1]], tracker := SetContextReg(s.tracker, payload[0], payload[1]));
      RegisterKept(s.tracker, payload[0], payload[1], r);
      hide SetContextReg;
      PairKept(next, payload[2..], r);
    }
  }

  lemma RegisterKept(t: Tracker, offset: Word, value: Word, r: Word)
    ensures r != offset && r < REGISTERS ==> SetContextReg(t, offset, value).regs[r] == t.regs[r]
    ensures offset < REGISTERS ==> SetContextReg(t, offset, value).regs[offset] == value
  {
  }

  lemma {:induction false} PairSet<D>(s: State<D>, payload: seq<Word>, i: nat)
    requires LastPair(payload, i)
    ensures var t := SetPairs(s, payload);
            && payload[2 * i] in t.registers && t.registers[payload[2 * i]] == payload[2 * i + 1]
            && (payload[2 * i] < REGISTERS ==> t.tracker.regs[payload[2 * i]] == payload[2 * i + 1])
    decreases |payload|
  {
    var rest := payload[2..];
    var next := s.(registers := s.registers[payload[0] := payload[1]], tracker := SetContextReg(s.tracker, payload[0], payload[1]));
    RegisterKept(s.tracker, payload[0], payload[1], payload[0]);
    hide SetContextReg;
    if i == 0 {
      forall j: nat | 2 * j + 1 < |rest| ensures rest[2 * j] != payload[0] {
        assert rest[2 * j] == payload[2 * (j + 1)];
      }
      assert !SetsRegister(rest, payload[0]);
      hide SetsRegister;
      PairKept(next, rest, payload[0]);
    } else {
      assert rest[2 * (i - 1)] == payload[2 * i] && rest[2 * (i - 1) + 1] == payload[2 * i + 1];
      forall j: nat | i - 1 < j && 2 * j + 1 < |rest| ensures rest[2 * j] != rest[2 * (i - 1)] {
        assert rest[2 * j] == payload[2 * (j + 1)];
      }
      PairSet(next, rest, i - 1);
    }
  }

  /** A context register packet takes its payload in pairs, a last odd word left out:
      every register it names ends with the value of its last pair, in the register map
      and in the tracker, and all others keep theirs. */
  lemma ContextWriteActs<D>(memory: Memory, device: Device<D>, s: State<D>, payload: seq<Word>, depth: nat)
    requires depth <= 32
    ensures var o := Dispatch(memory, device, s, Packet(Type3, 0x69, payload), depth);
            && o.Done? && o.state.device == s.device
            && (forall i: nat :: LastPair(payload, i) ==>
                  && payload[2 * i] in o.state.registers && o.state.registers[payload[2 * i]] == payload[2 * i + 1]
                  && (payload[2 * i] < 0xB000 ==> o.state.tracker.regs[payload[2 * i]] == payload[2 * i + 1]))
            && (forall r: Word :: !SetsRegister(payload, r) ==>
                  && (r in o.state.registers <==> r in s.registers)
                  && (r in s.registers ==> o.state.registers[r] == s.registers[r])
                  && (r < 0xB000 ==> o.state.tracker.regs[r] == s.tracker.regs[r]))
  {
    hide SetsRegister;
    assert Dispatch(memory, device, s, Packet(Type3, 0x69, payload), depth) == Done(SetPairs(s, payload));
    DeviceKept(s, payload);
    hide SetPairs, Dispatch;
    forall i: nat | LastPair(payload, i)
      ensures var t := SetPairs(s, payload);
              && payload[2 * i] in t.registers && t.registers[payload[2 * i]] == payload[2 * i + 1]
              && (payload[2 * i] < 0xB000 ==> t.tracker.regs[payload[2 * i]] == payload[2 * i + 1])
    {
      PairSet(s, payload, i);
    }
    forall r: Word | !SetsRegister(payload, r)
      ensures var t := SetPairs(s, payload);
              && (r in t.registers <==> r in s.registers) && (r in s.registers ==> t.registers[r] == s.registers[r])
              && (r < 0xB000 ==> t.tracker.regs[r] == s.tracker.regs[r])
    {
      PairKept(s, payload, r);
    }
  }

  lemma {:induction false} DeviceKept<D>(s: State<D>, payload: seq<Word>)
    ensures SetPairs(s, payload).device == s.device
    decreases |payload|
  {
    hide SetContextReg;
    if |payload| >= 2 {
      DeviceKept(s.(registers := s.registers[payload[0] := payload[1]],
                    tracker := SetContextReg(s.tracker, payload[0], payload[1])), payload[2..]);
    }
  }

  // ---- The processor -----------------------------------------------------------------------------

  class CommandProcessor<D> {
    const memory: Memory
    const device: Device<D>
    var registers: map<Word, Word>
    var tracker: Tracker
    var state: D

    constructor (memory: Memory, device: Device<D>, state: D)
      ensures this.memory == memory && this.device == device && View() == State(map[], Fresh(), state)
    {
      this.memory, this.device, this.state := memory, device, state;
      registers, tracker := map[], Fresh();
    }

    function View(): State<D>
      reads this
    {
      State(registers, tracker, state)
    }

    function Ended(error: Option<DispatchError>): Outcome<D>
      reads this
    {
      if error.None? then Done(View()) else Stopped(View(), error.value)
    }

    method CallDevice(p: Packet) returns (error: Option<DispatchError>)
      modifies this
      ensures Ended(error) == OnDevice(device, old(View()), p)
    {
      var (ok, after) := device(p, View());
      state := after;
      return if ok then None else Some(DeviceFailed);
    }

    method SetContextRegs(payload: seq<Word>)
      modifies this
      ensures View() == SetPairs(old(View()), payload)
    {
      var index := 0;
      assert payload[0..] == payload;
      while index + 1 < |payload|
        invariant index <= |payload|
        invariant SetPairs(View(), payload[index..]) == SetPairs(old(View()), payload)
      {
        assert payload[index..][2..] == payload[index + 2..];
        registers := registers[payload[index] := payload[index + 1]];
        tracker := SetContextReg(tracker, payload[index], payload[index + 1]);
        index := index + 2;
      }
    }

    method Handle(p: Packet) returns (error: Option<DispatchError>)
      requires !IsIndirect(p)
      modifies this
      ensures Ended(error) == Leaf(device, old(View()), p)
    {
      hide SetContextReg, SetShReg, SetPairs;
      error := None;
      if !p.kind.Type3? {
        return;
      }
      if p.opcode == EVENT_WRITE {
        state := device(p, View()).1;
      } else if p.opcode == SET_CONTEXT_REG {
        SetContextRegs(p.payload);
      } else if p.opcode == SET_SH_REG {
        if |p.payload| >= 3 {
          registers := registers[p.payload[0] := p.payload[1]];
          tracker := SetShReg(tracker, p.payload[0], p.payload[1]);
          error := CallDevice(p);
        }
      } else if p.opcode == DRAW_INDEX_2 || p.opcode == DRAW_INDEX_AUTO {
        if p.payload == [] {
          return Some(TruncatedPacket);
        }
        error := CallDevice(p);
        if error.None? {
          tracker := tracker.(dirty := false);
        }
      } else if p.opcode == DISPATCH_DIRECT {
        if |p.payload| < 3 {
          return Some(TruncatedPacket);
        }
        error := CallDevice(p);
      }
    }

    /** Recursion into indirect buffers, in place. */
    method DispatchPacket(p: Packet, depth: nat) returns (error: Option<DispatchError>)
      requires depth <= MAX_DEPTH + 1
      modifies this
      ensures Ended(error) == Dispatch(memory, device, old(View()), p, depth)
      decreases MAX_DEPTH + 1 - depth, 0
    {
      hide Leaf, Parse;
      if depth > MAX_DEPTH {
        return Some(TooDeep);
      }
      if !IsIndirect(p) {
        error := Handle(p);
        return;
      }
      if |p.payload| < 2 {
        return Some(TruncatedPacket);
      }
      if Address(p) == 0 || Words(p) == 0 {
        return Some(BadRange);
      }
      var child := ParseViews(Fetch(memory, Address(p), Words(p)));
      if child.Malformed? {
        return Some(BadChild(child.error));
      }
      error := DispatchPackets(child.packets, depth + 1);
    }

    method DispatchPackets(packets: seq<Packet>, depth: nat) returns (error: Option<DispatchError>)
      requires depth <= MAX_DEPTH + 1
      modifies this
      ensures Ended(error) == DispatchAll(memory, device, old(View()), packets, depth)
      decreases MAX_DEPTH + 1 - depth, 1 + |packets|
    {
      hide Dispatch;
      assert packets[0..] == packets;
      for i := 0 to |packets|
        invariant DispatchAll(memory, device, View(), packets[i..], depth) == DispatchAll(memory, device, old(View()), packets, depth)
      {
        assert packets[i..][0] == packets[i] && packets[i..][1..] == packets[i + 1..];
        error := DispatchPacket(packets[i], depth);
        if error.Some? {
          return;
        }
      }
      return None;
    }

    method Submit(words: seq<Word>) returns (error: Option<DispatchError>)
      modifies this
      ensures Ended(error) == Submitted(memory, device, old(View()), words)
    {
      hide Parse, DispatchAll;
      var parsed := ParseViews(words);
      if parsed.Malformed? {
        return Some(BadChild(parsed.error));
      }
      error := DispatchPackets(parsed.packets, 0);
    }
  }
}
