/** The device-path parser against a printer of device paths as sections 10.3.1 and 10.3.5.1 of the UEFI
    Specification 2.10 lay them out. */
module DevicePath {
  import opened Prelude
  import opened LittleEndian

  const MEDIA_TYPE: u8 := 0x04
  const MEDIA_HD: u8 := 0x01
  const END_TYPE: u8 := 0x7F
  const END_ENTIRE: u8 := 0xFF
  const HEADER_SIZE := 4
  const HD_SIZE := 38

  datatype Node = Node(dpType: u8, subType: u8, payload: seq<u8>)

  /** The fields of a Hard Drive media node. */
  datatype HdData = HdData(partNumber: u32, start: u64, size: u64, signature: seq<u8>, format: u8, signatureType: u8)

  /** What the parser yields per media node: only hard drives are decoded. */
  datatype Parsed = Hd(hd: HdData) | OtherMedia

  // ---------------------------------------------------------------- the printer

  predicate Printable(node: Node) {
    |node.payload| + HEADER_SIZE < 0x1_0000
  }

  function Print(node: Node): seq<u8> {
    [node.dpType, node.subType] + ToBytes(|node.payload| + HEADER_SIZE, 2) + node.payload
  }

  function PrintAll(nodes: seq<Node>): seq<u8> {
    if nodes == [] then [] else Print(nodes[0]) + PrintAll(nodes[1..])
  }

  function PrintHd(hd: HdData): seq<u8> {
    ToBytes(hd.partNumber, 4) + ToBytes(hd.start, 8) + ToBytes(hd.size, 8) + hd.signature
    + [hd.format, hd.signatureType]
  }

  predicate IsEnd(node: Node) {
    node.dpType == END_TYPE && node.subType == END_ENTIRE
  }

  predicate IsHd(node: Node) {
    node.dpType == MEDIA_TYPE && node.subType == MEDIA_HD
  }

  /** A node before the end of the path; a hard drive node has at least the bytes of its fields. */
  predicate Inner(node: Node) {
    Printable(node) && !IsEnd(node) && (IsHd(node) ==> |node.payload| >= HD_SIZE)
  }

  function Meaning(node: Node): seq<Parsed>
    requires Inner(node)
  {
    if IsHd(node) then [Hd(Fields(node.payload))]
    else if node.dpType == MEDIA_TYPE then [OtherMedia]
    else []
  }

  /** One result per media node, in order. */
  function Meanings(nodes: seq<Node>): seq<Parsed>
    requires forall node :: node in nodes ==> Inner(node)
  {
    if nodes == [] then [] else Meaning(nodes[0]) + Meanings(nodes[1..])
  }

  function Fields(payload: seq<u8>): HdData
    requires |payload| >= HD_SIZE
  {
    FromBytesBound(payload[..4]);
    FromBytesBound(payload[4..12]);
    FromBytesBound(payload[12..20]);
    assert Pow256(4) == 0x1_0000_0000;
    assert Pow256(8) == 0x1_0000_0000 * Pow256(4);
    HdData(FromBytes(payload[..4]), FromBytes(payload[4..12]), FromBytes(payload[12..20]), payload[20..36],
        payload[36], payload[37])
  }

  // ---------------------------------------------------------------- the parser

  /** The next n bytes of a buffer, if it holds as many, and what is left. */
  method Read(buffer: seq<u8>, n: nat) returns (r: Result<seq<u8>>, rest: seq<u8>)
    ensures r.Ok? <==> n <= |buffer|
    ensures r.Ok? ==> |r.value| == n && buffer == r.value + rest
  {
    if n > |buffer| { return Err("unexpected EOF"), buffer; }
    return Ok(buffer[..n]), buffer[n..];
  }

  /** Reads the fields one after the other. It succeeds on payloads that hold them all, with the fields whose layout
      the payload begins with. */
  method ParseHD(data: seq<u8>) returns (r: Result<HdData>)
    ensures r.Ok? <==> |data| >= HD_SIZE
    ensures r.Ok? ==> r.value == Fields(data) && PrintHd(r.value) == data[..HD_SIZE]
  {
    var buffer := data;
    var partNumber, start, size, signature, format, signatureType;
    partNumber, buffer := Read(buffer, 4);
    if partNumber.Err? { return Err(partNumber.error); }
    start, buffer := Read(buffer, 8);
    if start.Err? { return Err(start.error); }
    size, buffer := Read(buffer, 8);
    if size.Err? { return Err(size.error); }
    signature, buffer := Read(buffer, 16);
    if signature.Err? { return Err(signature.error); }
    format, buffer := Read(buffer, 1);
    if format.Err? { return Err(format.error); }
    signatureType, buffer := Read(buffer, 1);
    if signatureType.Err? { return Err(signatureType.error); }
    FieldsOfParts(data, partNumber.value, start.value, size.value, signature.value, format.value[0],
        signatureType.value[0], buffer);
    FieldBounds(partNumber.value, start.value, size.value);
    PrintOfFields(data);
    return Ok(HdData(FromBytes(partNumber.value), FromBytes(start.value), FromBytes(size.value), signature.value,
                     format.value[0], signatureType.value[0]));
  }

  lemma FieldBounds(partNumber: seq<u8>, start: seq<u8>, size: seq<u8>)
    requires |partNumber| == 4 && |start| == 8 && |size| == 8
    ensures FromBytes(partNumber) < 0x1_0000_0000
    ensures FromBytes(start) < 0x1_0000_0000_0000_0000 && FromBytes(size) < 0x1_0000_0000_0000_0000
  {
    FromBytesBound(partNumber);
    FromBytesBound(start);
    FromBytesBound(size);
    assert Pow256(4) == 0x1_0000_0000;
    assert Pow256(8) == 0x1_0000_0000 * Pow256(4);
  }

  lemma FieldsOfParts(data: seq<u8>, partNumber: seq<u8>, start: seq<u8>, size: seq<u8>, signature: seq<u8>, format: u8,
                      signatureType: u8, rest: seq<u8>)
    requires |partNumber| == 4 && |start| == 8 && |size| == 8 && |signature| == 16
    requires data == partNumber + (start + (size + (signature + ([format] + ([signatureType] + rest)))))
    ensures |data| >= HD_SIZE && Fields(data).partNumber == FromBytes(partNumber)
    ensures Fields(data).start == FromBytes(start) && Fields(data).size == FromBytes(size)
    ensures Fields(data).signature == signature && Fields(data).format == format &&
            Fields(data).signatureType == signatureType
  {
    assert data[..4] == partNumber && data[4..12] == start && data[12..20] == size && data[20..36] == signature;
  }

  /** The fields print as the bytes they were read from. */
  lemma PrintOfFields(payload: seq<u8>)
    requires |payload| >= HD_SIZE
    ensures PrintHd(Fields(payload)) == payload[..HD_SIZE]
  {
    hide ToBytes, FromBytes;
    BytesRoundTrip(payload[..4]);
    BytesRoundTrip(payload[4..12]);
    BytesRoundTrip(payload[12..20]);
    InPieces(payload);
  }

  lemma InPieces(s: seq<u8>)
    requires |s| >= HD_SIZE
    ensures s[..HD_SIZE] == s[..4] + s[4..12] + s[12..20] + s[20..36] + [s[36], s[37]]
  {
  }

  function Length(buffer: seq<u8>): nat
    requires |buffer| >= HEADER_SIZE
  {
    FromPair(buffer[2], buffer[3])
  }

  /** Splits off the first node, if the buffer holds one completely. */
  function FirstNode(buffer: seq<u8>): Option<(Node, seq<u8>)> {
    if |buffer| < HEADER_SIZE then None
    else if Length(buffer) < HEADER_SIZE || Length(buffer) > |buffer| then None
    else Some((Node(buffer[0], buffer[1], buffer[HEADER_SIZE..Length(buffer)]), buffer[Length(buffer)..]))
  }

  /** The nodes of the buffer up to the end node, if there is one and all before it are in order. */
  function Nodes(buffer: seq<u8>): Option<seq<Node>>
    decreases |buffer|
  {
    match FirstNode(buffer)
    case None => None
    case Some((node, rest)) =>
      if IsEnd(node) then Some([])
      else if IsHd(node) && |node.payload| < HD_SIZE then None
      else
        match Nodes(rest)
        case None => None
        case Some(nodes) => Some([node] + nodes)
  }

  /** Consumes the buffer node by node; a result only once the end node is reached. */
  method ParseDP(dpData: seq<u8>) returns (r: Result<seq<Parsed>>)
    ensures r.Ok? <==> Nodes(dpData).Some?
    ensures r.Ok? ==> forall node :: node in Nodes(dpData).value ==> Inner(node)
    ensures r.Ok? ==> r.value == Meanings(Nodes(dpData).value)
  {
    var dps: seq<Parsed> := [];
    var buffer := dpData;
    ghost var seen: seq<Node> := [];
    assert forall nodes: seq<Node> :: seen + nodes == nodes;
    while true
      invariant (forall node :: node in seen ==> Inner(node)) && dps == Meanings(seen)
      invariant Nodes(dpData) == match Nodes(buffer) case None => None case Some(nodes) => Some(seen + nodes)
      decreases |buffer|
    {
      if |buffer| < HEADER_SIZE { return Err("EOF"); }
      var dpType, dpSubType, dpLen := buffer[0], buffer[1], Length(buffer);
      if dpLen < HEADER_SIZE { return Err("invalid dp size"); }
      if |buffer| < dpLen { return Err("unexpected EOF"); }
      var data := buffer[HEADER_SIZE..dpLen];
      ghost var node := Node(dpType, dpSubType, data);
      if dpType == MEDIA_TYPE {
        if dpSubType == MEDIA_HD {
          var hd := ParseHD(data);
          if hd.Err? { return Err(hd.error); }
          dps := dps + [Hd(hd.value)];
        } else {
          dps := dps + [OtherMedia];
        }
      } else if dpType == END_TYPE && dpSubType == END_ENTIRE {
        assert seen + [] == seen;
        return Ok(dps);
      }
      MeaningsSnoc(seen, node);
      assert forall nodes: seq<Node> :: seen + ([node] + nodes) == seen + [node] + nodes;
      buffer, seen := buffer[dpLen..], seen + [node];
    }
  }

  lemma {:induction false} MeaningsSnoc(nodes: seq<Node>, node: Node)
    requires (forall n :: n in nodes ==> Inner(n)) && Inner(node)
    ensures Meanings(nodes + [node]) == Meanings(nodes) + Meaning(node)
  {
    if nodes == [] {
      assert nodes + [node] == [node];
    } else {
      MeaningsSnoc(nodes[1..], node);
      assert (nodes + [node])[1..] == nodes[1..] + [node];
    }
  }

  // ---------------------------------------------------------------- parser and printer

  lemma LengthBytes(node: Node)
    requires Printable(node)
    ensures ToBytes(|node.payload| + HEADER_SIZE, 2)
         == [(|node.payload| + HEADER_SIZE) % 0x100, (|node.payload| + HEADER_SIZE) / 0x100]
  {
    var x := |node.payload| + HEADER_SIZE;
    assert ToBytes(x, 2) == [x % 0x100] + ToBytes(x / 0x100, 1);
    assert ToBytes(x / 0x100, 1) == [x / 0x100 % 0x100] + ToBytes(x / 0x100 / 0x100, 0);
  }

  /** The layout of a node: type, subtype, the length of the whole node low byte first, and the payload. */
  lemma NodeLayout(node: Node)
    requires Printable(node)
    ensures var bytes := Print(node);
      && |bytes| == 4 + |node.payload| && bytes[0] == node.dpType && bytes[1] == node.subType
      && (bytes[2] as int) + 0x100 * (bytes[3] as int) == |bytes| && bytes[4..] == node.payload
  {
    LengthBytes(node);
  }

  /** The layout of a Hard Drive media node, at the offsets of section 10.3.5.1. */
  lemma HardDriveLayout(hd: HdData)
    requires |hd.signature| == 16
    ensures var bytes := Print(Node(MEDIA_TYPE, MEDIA_HD, PrintHd(hd)));
      && |bytes| == 42 && bytes[..4] == [0x04, 0x01, 0x2A, 0x00]
      && FromBytes(bytes[4..8]) == hd.partNumber && FromBytes(bytes[8..16]) == hd.start
      && FromBytes(bytes[16..24]) == hd.size && bytes[24..40] == hd.signature
      && bytes[40] == hd.format && bytes[41] == hd.signatureType
  {
    var node := Node(MEDIA_TYPE, MEDIA_HD, PrintHd(hd));
    var bytes := Print(node);
    FieldsOfPrinted(hd, []);
    assert PrintHd(hd) + [] == PrintHd(hd);
    NodeLayout(node);
    assert bytes[4..] == PrintHd(hd);
    hide ToBytes, FromBytes, Print, PrintHd;
    assert bytes[4..][..4] == bytes[4..8] && bytes[4..][4..12] == bytes[8..16] && bytes[4..][12..20] == bytes[16..24];
    assert bytes[4..][20..36] == bytes[24..40] && bytes[4..][36] == bytes[40] && bytes[4..][37] == bytes[41];
    LengthBytes(node);
  }

  /** Only the end of the entire path ends it; the end of one instance in it, of subtype 1, does not. */
  lemma EndLayout()
    ensures Print(Node(END_TYPE, END_ENTIRE, [])) == [0x7F, 0xFF, 0x04, 0x00]
    ensures forall node :: IsEnd(node) <==> node.dpType == 0x7F && node.subType == 0xFF
    ensures Inner(Node(0x7F, 0x01, []))
  {
    LengthBytes(Node(END_TYPE, END_ENTIRE, []));
  }

  function MediaNodes(nodes: seq<Node>): nat {
    if nodes == [] then 0 else MediaNodes(nodes[1..]) + if nodes[0].dpType == 0x04 then 1 else 0
  }

  /** One result for each media node, in their order: the fields of a hard drive, or that it is another one. */
  lemma {:induction false} MeaningAt(nodes: seq<Node>, i: nat)
    requires (forall node :: node in nodes ==> Inner(node)) && i < |nodes| && nodes[i].dpType == 0x04
    ensures |Meanings(nodes)| == MediaNodes(nodes) && MediaNodes(nodes[..i]) < MediaNodes(nodes) && Inner(nodes[i])
    ensures Meanings(nodes)[MediaNodes(nodes[..i])]
         == if nodes[i].subType == 0x01 then Hd(Fields(nodes[i].payload)) else OtherMedia
  {
    MeaningsLength(nodes);
    if i > 0 {
      MeaningAt(nodes[1..], i - 1);
      assert nodes[..i][0] == nodes[0] && nodes[..i][1..] == nodes[1..][..i - 1];
    }
  }

  lemma {:induction false} MeaningsLength(nodes: seq<Node>)
    requires forall node :: node in nodes ==> Inner(node)
    ensures |Meanings(nodes)| == MediaNodes(nodes)
  {
    if nodes != [] { MeaningsLength(nodes[1..]); }
  }

  /** A printed node is split off whole, whatever follows it. */
  lemma FirstOfPrinted(node: Node, rest: seq<u8>)
    requires Printable(node)
    ensures FirstNode(Print(node) + rest) == Some((node, rest))
  {
    LengthBytes(node);
    var buffer := Print(node) + rest;
    assert Length(buffer) == |node.payload| + HEADER_SIZE;
    assert buffer[HEADER_SIZE..Length(buffer)] == node.payload;
    assert buffer[Length(buffer)..] == rest;
  }

  /** Whatever is split off is a printed node. */
  lemma PrintedFirst(buffer: seq<u8>)
    requires FirstNode(buffer).Some?
    ensures Printable(FirstNode(buffer).value.0)
    ensures buffer == Print(FirstNode(buffer).value.0) + FirstNode(buffer).value.1
  {
    var (node, rest) := FirstNode(buffer).value;
    LengthBytes(node);
    assert Print(node) == buffer[..Length(buffer)];
  }

  /** For any nodes in order, an end node and any trailing bytes, the parser finds exactly those nodes. */
  lemma {:induction false} ParseOfPrinted(nodes: seq<Node>, end: Node, rest: seq<u8>)
    requires (forall node :: node in nodes ==> Inner(node)) && IsEnd(end) && Printable(end)
    ensures Nodes(PrintAll(nodes) + Print(end) + rest) == Some(nodes)
  {
    var buffer := PrintAll(nodes) + Print(end) + rest;
    if nodes == [] {
      assert buffer == Print(end) + rest;
      FirstOfPrinted(end, rest);
    } else {
      var more := PrintAll(nodes[1..]) + Print(end) + rest;
      assert nodes[0] in nodes;
      assert buffer == Print(nodes[0]) + more by {
        Regroup(Print(nodes[0]), PrintAll(nodes[1..]), Print(end), rest);
      }
      FirstOfPrinted(nodes[0], more);
      ParseOfPrinted(nodes[1..], end, rest);
      assert [nodes[0]] + nodes[1..] == nodes;
    }
  }

  lemma Regroup(a: seq<u8>, b: seq<u8>, c: seq<u8>, d: seq<u8>)
    ensures a + b + c + d == a + (b + c + d)
  {
  }

  /** The parser accepts nothing else: what it accepts is a printed path with an end node in it. */
  lemma {:induction false} PrintOfParsed(buffer: seq<u8>) returns (end: Node, rest: seq<u8>)
    requires Nodes(buffer).Some?
    ensures (forall node :: node in Nodes(buffer).value ==> Inner(node)) && IsEnd(end) && Printable(end)
    ensures buffer == PrintAll(Nodes(buffer).value) + Print(end) + rest
    decreases |buffer|
  {
    var (node, more) := FirstNode(buffer).value;
    PrintedFirst(buffer);
    if IsEnd(node) {
      end, rest := node, more;
      assert [] + Print(end) == Print(end);
    } else {
      end, rest := PrintOfParsed(more);
      var nodes := Nodes(more).value;
      assert ([node] + nodes)[1..] == nodes;
      Regroup(Print(node), PrintAll(nodes), Print(end), rest);
    }
  }

  /** Every field of a hard drive node is recovered; bytes after the fields do not matter. */
  lemma FieldsOfPrinted(hd: HdData, extra: seq<u8>)
    requires |hd.signature| == 16
    ensures |PrintHd(hd)| == HD_SIZE
    ensures Fields(PrintHd(hd) + extra) == hd
  {
    var payload := PrintHd(hd) + extra;
    assert Pow256(4) == 0x1_0000_0000;
    assert Pow256(8) == 0x1_0000_0000 * Pow256(4);
    NumberRoundTrip(hd.partNumber, 4);
    NumberRoundTrip(hd.start, 8);
    NumberRoundTrip(hd.size, 8);
    assert payload[..4] == ToBytes(hd.partNumber, 4);
    assert payload[4..12] == ToBytes(hd.start, 8);
    assert payload[12..20] == ToBytes(hd.size, 8);
    assert payload[20..36] == hd.signature;
  }
}
