/** DNS messages as byte sequences: what the query builder writes and what the
    response parser reads (RFC 1035, sections 3.1 and 4.1). */
module DnsMessage {
  import opened Common

  type Bytes = seq<Byte>

  const HEADER_SIZE := 12
  const QUESTION_SIZE := 4
  const R_DATA_SIZE := 10
  const MAX_HOST_ADDRESSES := 4
  const T_A := 1
  const CLASS_IN := 1
  const DOT: Byte := 46

  // ---- the query ---------------------------------------------------------------------

  /** The labels of a host name: the parts between dots. */
  function Split(host: Bytes): (labels: seq<Bytes>)
    ensures labels != []
  {
    if host == [] then [[]]
    else
      var n := |host| - 1;
      var ls := Split(host[..n]);
      if host[n] == DOT then ls + [[]] else ls[|ls| - 1 := ls[|ls| - 1] + [host[n]]]
  }

  function Join(labels: seq<Bytes>): Bytes {
    if labels == [] then []
    else if |labels| == 1 then labels[0]
    else Join(labels[..|labels| - 1]) + [DOT] + labels[|labels| - 1]
  }

  /** Each label behind its length, which is a single byte. */
  function EncodeLabels(labels: seq<Bytes>): Bytes {
    if labels == [] then []
    else
      var n := |labels| - 1;
      EncodeLabels(labels[..n]) + [|labels[n]| % 0x100] + labels[n]
  }

  /** The QNAME of a host name: its labels and the empty label. */
  function QName(host: Bytes): Bytes {
    EncodeLabels(Split(host)) + [0]
  }

  /** Identifier 0, recursion desired, one question. */
  const QUERY_HEADER: Bytes := [0, 0, 1, 0, 0, 1, 0, 0, 0, 0, 0, 0]

  /** QTYPE A, QCLASS IN. */
  const QUERY_TAIL: Bytes := [0, T_A, 0, CLASS_IN]

  function Query(host: Bytes): Bytes {
    QUERY_HEADER + QName(host) + QUERY_TAIL
  }

  // ---- the response --------------------------------------------------------------------

  function U16(b: Bytes, pos: nat): int
    requires pos + 2 <= |b|
  {
    (b[pos] as int) * 0x100 + (b[pos + 1] as int)
  }

  /** The position behind the name at `pos`, if the buffer holds all of it. A length
      byte of at least 0xC0 starts a two-byte pointer and ends the name. */
  function SkipName(b: Bytes, pos: nat): (r: Option<nat>)
    requires pos <= |b|
    ensures r.Some? ==> pos < r.value <= |b|
    decreases |b| - pos
  {
    if pos == |b| then None
    else
      var c, p := b[pos], pos + 1;
      if c == 0 then Some(p)
      else if c >= 0xC0 then (if p == |b| then None else Some(p + 1))
      else if |b| - p < c then None
      else SkipName(b, p + c)
  }

  /** The fields of a resource record behind its name. */
  predicate IsAddress(b: Bytes, pos: nat)
    requires pos + R_DATA_SIZE <= |b|
  {
    U16(b, pos) == T_A && U16(b, pos + 2) == CLASS_IN
  }

  function DataLength(b: Bytes, pos: nat): int
    requires pos + R_DATA_SIZE <= |b|
  {
    U16(b, pos + 8)
  }

  function Remember(found: seq<Bytes>, a: Bytes): seq<Bytes> {
    if |found| >= MAX_HOST_ADDRESSES then found else found + [a]
  }

  /** One resource record at `pos`: the addresses known after it and the position
      behind it. */
  function Answer(b: Bytes, pos: nat, found: seq<Bytes>): (r: Option<(seq<Bytes>, nat)>)
    requires pos <= |b|
    ensures r.Some? ==> pos < r.value.1 <= |b|
    ensures r.Some? && |found| <= MAX_HOST_ADDRESSES ==> |r.value.0| <= MAX_HOST_ADDRESSES
  {
    match SkipName(b, pos)
    case None => None
    case Some(p) =>
      if |b| - p < R_DATA_SIZE then None
      else
        var q, len := p + R_DATA_SIZE, DataLength(b, p);
        if IsAddress(b, p) then
          if len != 4 || |b| - q < 4 then None
          else Some((Remember(found, b[q..q + 4]), q + 4))
        else if |b| - q < len then None
        else Some((found, q + len))
  }

  function Answers(b: Bytes, pos: nat, count: nat, found: seq<Bytes>): (r: Option<(seq<Bytes>, nat)>)
    requires pos <= |b|
    ensures r.Some? ==> pos <= r.value.1 <= |b|
    ensures r.Some? && |found| <= MAX_HOST_ADDRESSES ==> |r.value.0| <= MAX_HOST_ADDRESSES
    decreases count
  {
    if count == 0 then Some((found, pos))
    else
      match Answer(b, pos, found)
      case None => None
      case Some(next) => Answers(b, next.1, count - 1, next.0)
  }

  /** The addresses in a response, and how far the parser read. A `qlen` below the
      header size is a read of a huge unsigned length, which fails. */
  function ParseA(b: Bytes, qlen: int): (r: Option<(seq<Bytes>, nat)>)
    ensures r.Some? ==> r.value.1 <= |b| && |r.value.0| <= MAX_HOST_ADDRESSES
  {
    if |b| < HEADER_SIZE || U16(b, 6) < 1 || qlen < HEADER_SIZE || |b| < qlen then None
    else Answers(b, qlen, U16(b, 6), [])
  }

  // ---- well-formed responses (RFC 1035, sections 4.1.3 and 4.1.4) ---------------------------

  /** A name as labels, ended by the empty label or by a pointer. */
  datatype Name = Plain(labels: seq<Bytes>) | Compressed(labels: seq<Bytes>, hi: Byte, lo: Byte)

  datatype Record = Record(name: Name, rtype: nat, rclass: nat, ttl: Bytes, rdata: Bytes)

  ghost predicate LabelsOk(labels: seq<Bytes>) {
    forall i :: 0 <= i < |labels| ==> 1 <= |labels[i]| <= 63
  }

  ghost predicate NameOk(n: Name) {
    LabelsOk(n.labels) && (n.Compressed? ==> n.hi >= 0xC0)
  }

  ghost predicate RecordOk(r: Record) {
    NameOk(r.name) && r.rtype < 0x1_0000 && r.rclass < 0x1_0000 && |r.ttl| == 4 && |r.rdata| < 0x1_0000
  }

  function EncodeName(n: Name): Bytes {
    EncodeLabels(n.labels) + match n case Plain(_) => [0] case Compressed(_, hi, lo) => [hi, lo]
  }

  /** The low 16 bits of `n`, high byte first. */
  function Big16(n: nat): Bytes {
    [n / 0x100 % 0x100, n % 0x100]
  }

  function EncodeRecord(r: Record): Bytes {
    EncodeName(r.name) + (Big16(r.rtype) + Big16(r.rclass) + r.ttl + Big16(|r.rdata|)) + r.rdata
  }

  function EncodeRecords(rs: seq<Record>): Bytes {
    if rs == [] then [] else EncodeRecord(rs[0]) + EncodeRecords(rs[1..])
  }

  /** TYPE A is 1 and CLASS IN is 1. */
  predicate IsAddressRecord(r: Record) {
    r.rtype == 1 && r.rclass == 1
  }

  /** The data of the A/IN records, in order. */
  function AddressesOf(rs: seq<Record>): seq<Bytes> {
    if rs == [] then []
    else (if IsAddressRecord(rs[0]) then [rs[0].rdata] else []) + AddressesOf(rs[1..])
  }

  function FirstFour(s: seq<Bytes>): seq<Bytes> {
    if |s| <= 4 then s else s[..4]
  }
}
