/** Round trips and robustness of the DNS message functions. */
module DnsTheorems {
  import opened Common
  import opened DnsMessage

  /** `s` stands in `b` at `pos`. */
  ghost predicate At(b: Bytes, pos: nat, s: Bytes) {
    pos + |s| <= |b| && b[pos..pos + |s|] == s
  }

  lemma AtParts(b: Bytes, pos: nat, s: Bytes, t: Bytes)
    ensures At(b, pos, s + t) <==> At(b, pos, s) && At(b, pos + |s|, t)
  {
    if At(b, pos, s + t) {
      assert b[pos..pos + |s|] == (s + t)[..|s|] == s;
      assert b[pos + |s|..pos + |s| + |t|] == (s + t)[|s|..] == t;
    }
    if At(b, pos, s) && At(b, pos + |s|, t) {
      assert b[pos..pos + |s| + |t|] == b[pos..pos + |s|] + b[pos + |s|..pos + |s| + |t|];
    }
  }

  lemma AtByte(b: Bytes, pos: nat, c: Byte)
    ensures At(b, pos, [c]) <==> pos < |b| && b[pos] == c
  {
    if pos < |b| {
      assert b[pos..pos + 1] == [b[pos]];
    }
  }

  // ---- names -------------------------------------------------------------------------

  lemma {:induction false} SplitLosesNothing(host: Bytes)
    ensures Join(Split(host)) == host
  {
    if host != [] {
      var n := |host| - 1;
      var ls := Split(host[..n]);
      SplitLosesNothing(host[..n]);
      assert host == host[..n] + [host[n]];
      var m := |ls| - 1;
      if host[n] == DOT {
        var all := ls + [[]];
        assert all[..m + 1] == ls;
        assert Join(all) == Join(ls) + [DOT] + [];
      } else {
        var all := ls[m := ls[m] + [host[n]]];
        assert all[..m] == ls[..m];
        if m > 0 {
          assert Join(all) == Join(ls[..m]) + [DOT] + (ls[m] + [host[n]]);
        }
      }
    }
  }

  /** The labels are the parts between the dots: none contains one. */
  lemma {:induction false} LabelsHaveNoDots(host: Bytes)
    ensures forall l :: l in Split(host) ==> DOT !in l
  {
    if host != [] {
      var n := |host| - 1;
      var ls := Split(host[..n]);
      LabelsHaveNoDots(host[..n]);
      assert ls[|ls| - 1] in ls;
    }
  }

  lemma {:induction false} QNameLength(host: Bytes)
    ensures |QName(host)| == |host| + 2
  {
    if host == [] {
      var none: seq<Bytes> := [];
      EncodeLast(none, []);
      assert Split(host) == none + [[]];
    } else {
      var n := |host| - 1;
      QNameLength(host[..n]);
      assert host == host[..n] + [host[n]];
      EncodeSplit(host[..n]);
      if host[n] == DOT {
        EncodeDot(host[..n]);
      } else {
        EncodeChar(host[..n], host[n]);
      }
    }
  }

  lemma EncodeLast(ls: seq<Bytes>, l: Bytes)
    ensures EncodeLabels(ls + [l]) == EncodeLabels(ls) + [|l| % 0x100] + l
  {
    var all := ls + [l];
    assert all[..|all| - 1] == ls;
  }

  /** The encoded labels of a host name, around the length byte of the last one. */
  lemma EncodeSplit(host: Bytes)
    ensures var ls := Split(host);
      EncodeLabels(ls) == EncodeLabels(ls[..|ls| - 1]) + [|ls[|ls| - 1]| % 0x100] + ls[|ls| - 1]
  {
  }

  /** What one more character does to the labels. */
  lemma SplitExtends(host: Bytes, c: Byte)
    ensures var ls := Split(host);
      Split(host + [c]) == if c == DOT then ls + [[]] else ls[|ls| - 1 := ls[|ls| - 1] + [c]]
  {
    var h := host + [c];
    assert h[..|h| - 1] == host;
  }

  /** When the host name grows by a dot an empty label is added. */
  lemma EncodeDot(host: Bytes)
    ensures EncodeLabels(Split(host + [DOT])) == EncodeLabels(Split(host)) + [0]
  {
    var h := host + [DOT];
    assert h[..|h| - 1] == host;
    EncodeLast(Split(host), []);
  }

  /** Any other character is appended to the last label, whose length byte is
      incremented in place. */
  lemma EncodeChar(host: Bytes, c: Byte)
    requires c != DOT
    ensures var ls := Split(host);
      EncodeLabels(Split(host + [c]))
        == EncodeLabels(ls[..|ls| - 1]) + [(|ls[|ls| - 1]| + 1) % 0x100] + (ls[|ls| - 1] + [c])
  {
    var ls, h := Split(host), host + [c];
    var m := |ls| - 1;
    assert h[..|h| - 1] == host;
    assert Split(h) == ls[..m] + [ls[m] + [c]];
    EncodeLast(ls[..m], ls[m] + [c]);
  }

  lemma {:induction false} EncodeFirst(l: Bytes, ls: seq<Bytes>)
    ensures EncodeLabels([l] + ls) == [|l| % 0x100] + l + EncodeLabels(ls)
    decreases |ls|
  {
    if ls == [] {
      assert [l] + ls == [] + [l];
      EncodeLast([], l);
    } else {
      var n := |ls| - 1;
      assert [l] + ls == ([l] + ls[..n]) + [ls[n]];
      EncodeLast([l] + ls[..n], ls[n]);
      EncodeFirst(l, ls[..n]);
      assert ls == ls[..n] + [ls[n]];
      EncodeLast(ls[..n], ls[n]);
    }
  }

  /** The parser steps over exactly the labels, whatever stands before and behind them. */
  lemma {:induction false} SkipLabels(b: Bytes, pos: nat, labels: seq<Bytes>)
    requires forall i :: 0 <= i < |labels| ==> 1 <= |labels[i]| < 0xC0
    requires At(b, pos, EncodeLabels(labels))
    ensures SkipName(b, pos) == SkipName(b, pos + |EncodeLabels(labels)|)
    decreases |labels|
  {
    if labels != [] {
      hide EncodeLabels; hide SkipName; hide At;
      var l, rest := labels[0], labels[1..];
      assert EncodeLabels(labels) + [] == EncodeLabels(labels) && EncodeLabels(rest) + [] == EncodeLabels(rest);
      FirstLabelAt(b, pos, labels, []);
      SkipLabel(b, pos, l);
      SkipLabels(b, pos + 1 + |l|, rest);
    }
  }

  /** The first of the labels at `pos`, and the others behind it. */
  lemma FirstLabelAt(b: Bytes, pos: nat, labels: seq<Bytes>, tail: Bytes)
    requires labels != [] && At(b, pos, EncodeLabels(labels) + tail)
    ensures var l, f := labels[0], EncodeLabels(labels[1..]);
      && At(b, pos, [|l| % 0x100] + l) && At(b, pos + 1 + |l|, f + tail)
      && |EncodeLabels(labels)| == 1 + |l| + |f|
  {
    hide At; hide EncodeLabels;
    var l, rest := labels[0], labels[1..];
    var head, f := [|l| % 0x100] + l, EncodeLabels(rest);
    assert labels == [l] + rest;
    EncodeFirst(l, rest);
    assert head + f + tail == head + (f + tail);
    AtParts(b, pos, head, f + tail);
    assert |head| == 1 + |l|;
  }

  lemma SkipLabel(b: Bytes, pos: nat, l: Bytes)
    requires 1 <= |l| < 0xC0 && At(b, pos, [|l| % 0x100] + l)
    ensures pos + 1 + |l| <= |b| && SkipName(b, pos) == SkipName(b, pos + 1 + |l|)
  {
    AtParts(b, pos, [|l| % 0x100], l);
    AtByte(b, pos, |l|);
  }

  /** A plain name, a pointer, or labels ended by a pointer are stepped over exactly. */
  lemma SkipNameExactly(b: Bytes, pos: nat, n: Name)
    requires NameOk(n) && At(b, pos, EncodeName(n))
    ensures SkipName(b, pos) == Some(pos + |EncodeName(n)|)
  {
    var e := EncodeLabels(n.labels);
    match n {
      case Plain(ls) =>
        AtParts(b, pos, e, [0]);
        AtByte(b, pos + |e|, 0);
      case Compressed(ls, hi, lo) =>
        AtParts(b, pos, e, [hi, lo]);
        assert [hi, lo] == [hi] + [lo];
        AtParts(b, pos + |e|, [hi], [lo]);
        AtByte(b, pos + |e|, hi);
    }
    SkipLabels(b, pos, n.labels);
  }

  // ---- the query's name, read back --------------------------------------------------------

  /** The labels of the name at `pos`, as RFC 1035, section 3.1, reads them. */
  function DecodeName(b: Bytes, pos: nat): (r: Option<seq<Bytes>>)
    requires pos <= |b|
    decreases |b| - pos
  {
    if pos == |b| then None
    else if b[pos] == 0 then Some([])
    else if b[pos] > 63 || |b| - pos - 1 < b[pos] then None
    else
      var p := pos + 1 + b[pos];
      match DecodeName(b, p)
      case None => None
      case Some(ls) => Some([b[pos + 1..p]] + ls)
  }

  lemma {:induction false} DecodeEncoded(b: Bytes, pos: nat, labels: seq<Bytes>)
    requires LabelsOk(labels) && At(b, pos, EncodeLabels(labels) + [0])
    ensures DecodeName(b, pos) == Some(labels)
    decreases |labels|
  {
    if labels == [] {
      assert EncodeLabels(labels) + [0] == [0];
      AtByte(b, pos, 0);
    } else {
      hide EncodeLabels; hide DecodeName; hide At;
      var l, rest := labels[0], labels[1..];
      assert labels == [l] + rest;
      FirstLabelAt(b, pos, labels, [0]);
      DecodeLabel(b, pos, l);
      DecodeEncoded(b, pos + 1 + |l|, rest);
      assert DecodeName(b, pos) == Some([l] + rest);
    }
  }

  lemma DecodeLabel(b: Bytes, pos: nat, l: Bytes)
    requires 1 <= |l| <= 63 && At(b, pos, [|l| % 0x100] + l)
    ensures var p := pos + 1 + |l|;
      p <= |b| && DecodeName(b, pos) ==
        match DecodeName(b, p) case None => None case Some(ls) => Some([l] + ls)
  {
    AtParts(b, pos, [|l| % 0x100], l);
    AtByte(b, pos, |l|);
  }

  lemma HostSkipped(host: Bytes, b: Bytes, pos: nat, ls: seq<Bytes>)
    requires ls == Split(host) && LabelsOk(ls) && At(b, pos, EncodeLabels(ls) + [0])
    ensures SkipName(b, pos) == Some(pos + |host| + 2)
  {
    hide SkipName;
    hide EncodeLabels;
    hide Split;
    QNameLength(host);
    var n := Plain(ls);
    assert EncodeName(n) == EncodeLabels(ls) + [0];
    assert NameOk(n);
    SkipNameExactly(b, pos, n);
  }

  /** For host names with labels of 1 to 63 bytes, the name written into a query reads
      back as the labels of the host name, from which the host name is recovered, and
      the response parser steps over exactly its bytes. */
  lemma HostRoundTrip(host: Bytes, b: Bytes, pos: nat)
    requires LabelsOk(Split(host)) && At(b, pos, QName(host))
    ensures DecodeName(b, pos) == Some(Split(host)) && Join(Split(host)) == host
    ensures SkipName(b, pos) == Some(pos + |host| + 2)
  {
    DecodeEncoded(b, pos, Split(host));
    SplitLosesNothing(host);
    HostSkipped(host, b, pos, Split(host));
  }

  /** In particular in a query, behind the header. */
  lemma QueryRoundTrip(host: Bytes)
    requires LabelsOk(Split(host))
    ensures |Query(host)| == |host| + 18
    ensures DecodeName(Query(host), HEADER_SIZE) == Some(Split(host))
    ensures SkipName(Query(host), HEADER_SIZE) == Some(|Query(host)| - QUESTION_SIZE)
  {
    QNameLength(host);
    assert At(Query(host), HEADER_SIZE, QName(host));
    HostRoundTrip(host, Query(host), HEADER_SIZE);
  }

  // ---- responses ----------------------------------------------------------------------------

  ghost predicate RecordsOk(rs: seq<Record>) {
    forall r :: r in rs ==> RecordOk(r)
  }

  /** Every A/IN record carries four bytes. */
  ghost predicate AddressesOk(rs: seq<Record>) {
    forall r :: r in rs && IsAddressRecord(r) ==> |r.rdata| == 4
  }

  /** The high byte comes first. */
  lemma Big16Meaning(n: nat)
    requires n < 65536
    ensures var s := Big16(n); |s| == 2 && (s[0] as int) * 256 + (s[1] as int) == n
  {
  }

  lemma Big16Reads(b: Bytes, pos: nat, n: nat)
    requires n < 0x1_0000 && At(b, pos, Big16(n))
    ensures U16(b, pos) == n
  {
    assert b[pos] == b[pos..pos + 2][0] && b[pos + 1] == b[pos..pos + 2][1];
  }

  /** The fixed fields of a record. */
  function Fields(r: Record): Bytes {
    Big16(r.rtype) + Big16(r.rclass) + r.ttl + Big16(|r.rdata|)
  }

  lemma FieldsRead(b: Bytes, p: nat, r: Record)
    requires RecordOk(r) && At(b, p, Fields(r))
    ensures |Fields(r)| == R_DATA_SIZE
    ensures IsAddress(b, p) <==> IsAddressRecord(r)
    ensures DataLength(b, p) == |r.rdata|
  {
    AtParts(b, p, Big16(r.rtype) + Big16(r.rclass) + r.ttl, Big16(|r.rdata|));
    AtParts(b, p, Big16(r.rtype) + Big16(r.rclass), r.ttl);
    AtParts(b, p, Big16(r.rtype), Big16(r.rclass));
    Big16Reads(b, p, r.rtype);
    Big16Reads(b, p + 2, r.rclass);
    Big16Reads(b, p + 8, |r.rdata|);
  }

  /** One encoded record: an A/IN record of the right size is remembered, one of another
      size fails, and any other record is skipped. */
  lemma AnswerExactly(b: Bytes, pos: nat, r: Record, found: seq<Bytes>)
    requires RecordOk(r) && At(b, pos, EncodeRecord(r))
    ensures Answer(b, pos, found) ==
      if !IsAddressRecord(r) then Some((found, pos + |EncodeRecord(r)|))
      else if |r.rdata| == 4 then Some((Remember(found, r.rdata), pos + |EncodeRecord(r)|))
      else None
  {
    hide SkipName; hide EncodeName; hide IsAddress; hide DataLength; hide Remember; hide Big16;
    var n := EncodeName(r.name);
    AtParts(b, pos, n + Fields(r), r.rdata);
    AtParts(b, pos, n, Fields(r));
    SkipNameExactly(b, pos, r.name);
    FieldsRead(b, pos + |n|, r);
  }

  /** The addresses known after the records `rs`, told record by record. */
  function Collect(found: seq<Bytes>, rs: seq<Record>): seq<Bytes>
    decreases |rs|
  {
    if rs == [] then found
    else Collect(NextFound(found, rs[0]), rs[1..])
  }

  lemma {:induction false} CollectIsFirstFour(found: seq<Bytes>, rs: seq<Record>)
    requires |found| <= MAX_HOST_ADDRESSES
    ensures Collect(found, rs) == FirstFour(found + AddressesOf(rs))
    decreases |rs|
  {
    if rs == [] {
      assert found + AddressesOf(rs) == found;
    } else {
      var r, more := rs[0], AddressesOf(rs[1..]);
      if !IsAddressRecord(r) {
        assert AddressesOf(rs) == [] + more == more;
        CollectIsFirstFour(found, rs[1..]);
      } else {
        CollectIsFirstFour(Remember(found, r.rdata), rs[1..]);
        if |found| < MAX_HOST_ADDRESSES {
          assert found + ([r.rdata] + more) == found + [r.rdata] + more;
        } else {
          assert FirstFour(found + more) == found == FirstFour(found + ([r.rdata] + more));
        }
      }
    }
  }

  function NextFound(found: seq<Bytes>, r: Record): seq<Bytes> {
    if IsAddressRecord(r) then Remember(found, r.rdata) else found
  }

  /** The parser cannot get past this record. */
  predicate Fatal(r: Record) {
    IsAddressRecord(r) && |r.rdata| != 4
  }

  lemma FirstAnswer(b: Bytes, pos: nat, r: Record, count: nat, found: seq<Bytes>)
    requires RecordOk(r) && At(b, pos, EncodeRecord(r)) && count > 0
    ensures Fatal(r) ==> Answers(b, pos, count, found) == None
    ensures !Fatal(r) ==>
      (Answers(b, pos, count, found) == Answers(b, pos + |EncodeRecord(r)|, count - 1, NextFound(found, r)))
  {
    hide Answer; hide EncodeRecord; hide Remember;
    AnswerExactly(b, pos, r, found);
  }

  lemma {:induction false} AnswersExactly(b: Bytes, pos: nat, count: nat, rs: seq<Record>, found: seq<Bytes>)
      returns (a: Option<(seq<Bytes>, nat)>)
    requires RecordsOk(rs) && At(b, pos, EncodeRecords(rs)) && count == |rs|
    ensures a == Answers(b, pos, count, found)
    ensures AddressesOk(rs) ==> a == Some((Collect(found, rs), pos + |EncodeRecords(rs)|))
    ensures !AddressesOk(rs) ==> a == None
    decreases |rs|
  {
    hide Answer;
    hide EncodeRecord;
    if rs == [] {
      a := Some((found, pos));
    } else {
      var r, rest := rs[0], rs[1..];
      AddressesOkParts(rs);
      var e, f := EncodeRecord(r), EncodeRecords(rest);
      AtParts(b, pos, e, f);
      FirstAnswer(b, pos, r, count, found);
      if Fatal(r) {
        a := None;
      } else {
        a := AnswersExactly(b, pos + |e|, count - 1, rest, NextFound(found, r));
        assert |EncodeRecords(rs)| == |e| + |f|;
      }
    }
  }

  lemma AddressesOkParts(rs: seq<Record>)
    requires rs != []
    ensures RecordsOk(rs) <==> RecordOk(rs[0]) && RecordsOk(rs[1..])
    ensures AddressesOk(rs) <==> !Fatal(rs[0]) && AddressesOk(rs[1..])
  {
    var r := rs[0];
    assert r in rs && forall s :: s in rs <==> s == r || s in rs[1..];
  }

  lemma ParseExactly(b: Bytes, qlen: nat, rs: seq<Record>)
    requires HEADER_SIZE <= qlen && At(b, qlen, EncodeRecords(rs))
    requires U16(b, 6) == |rs| && RecordsOk(rs)
    ensures ParseA(b, qlen) ==
      if rs != [] && AddressesOk(rs) then Some((FirstFour(AddressesOf(rs)), qlen + |EncodeRecords(rs)|)) else None
  {
    var a := AnswersExactly(b, qlen, |rs|, rs, []);
    CollectIsFirstFour([], rs);
    assert [] + AddressesOf(rs) == AddressesOf(rs);
  }

  /** Twelve bytes, of which the seventh and eighth count the answers, high byte first. */
  ghost predicate HeaderOk(header: Bytes, answers: nat) {
    |header| == 12 && (header[6] as int) * 256 + (header[7] as int) == answers
  }

  /** A response whose header and question take `qlen` bytes and whose answers are well
      formed parses exactly when there are answers and every A/IN record has RDLENGTH 4,
      and then yields the first four A/IN addresses in order; other records, and whatever
      follows the answers, make no difference. */
  lemma ResponseParses(header: Bytes, question: Bytes, rs: seq<Record>, extra: Bytes)
    requires HeaderOk(header, |rs|) && RecordsOk(rs)
    ensures var b := header + question + EncodeRecords(rs) + extra;
      ParseA(b, 12 + |question|) ==
        if rs != [] && AddressesOk(rs)
        then Some((FirstFour(AddressesOf(rs)), 12 + |question| + |EncodeRecords(rs)|))
        else None
  {
    hide ParseA;
    hide EncodeRecords;
    Placed(header, question, EncodeRecords(rs), extra);
    ParseExactly(header + question + EncodeRecords(rs) + extra, HEADER_SIZE + |question|, rs);
  }

  lemma Placed(header: Bytes, question: Bytes, e: Bytes, extra: Bytes)
    requires |header| == HEADER_SIZE
    ensures var b := header + question + e + extra;
      U16(b, 6) == U16(header, 6) && At(b, HEADER_SIZE + |question|, e)
  {
    var b := header + question + e + extra;
    assert b[6] == header[6] && b[7] == header[7];
    var qlen := HEADER_SIZE + |question|;
    assert b[qlen..qlen + |e|] == e;
  }

  // ---- trailing bytes -------------------------------------------------------------------------

  lemma {:induction false} SkipNameExtends(b: Bytes, pos: nat, extra: Bytes)
    requires pos <= |b| && SkipName(b, pos).Some?
    ensures SkipName(b + extra, pos) == SkipName(b, pos)
    decreases |b| - pos
  {
    var c := b + extra;
    assert c[pos] == b[pos];
    if 0 < b[pos] < 0xC0 {
      SkipNameExtends(b, pos + 1 + b[pos], extra);
    }
  }

  lemma AnswerExtends(b: Bytes, pos: nat, found: seq<Bytes>, extra: Bytes)
    requires pos <= |b| && Answer(b, pos, found).Some?
    ensures Answer(b + extra, pos, found) == Answer(b, pos, found)
  {
    var c := b + extra;
    SkipNameExtends(b, pos, extra);
    var p := SkipName(b, pos).value;
    forall i | p <= i < p + R_DATA_SIZE ensures c[i] == b[i] {
    }
    assert IsAddress(c, p) == IsAddress(b, p) && DataLength(c, p) == DataLength(b, p);
    var q := p + R_DATA_SIZE;
    if IsAddress(b, p) {
      assert c[q..q + 4] == b[q..q + 4];
    }
  }

  lemma {:induction false} AnswersExtend(b: Bytes, pos: nat, count: nat, found: seq<Bytes>, extra: Bytes)
    requires pos <= |b| && Answers(b, pos, count, found).Some?
    ensures Answers(b + extra, pos, count, found) == Answers(b, pos, count, found)
    decreases count
  {
    if count > 0 {
      AnswerExtends(b, pos, found, extra);
      var next := Answer(b, pos, found).value;
      AnswersExtend(b, next.1, count - 1, next.0, extra);
    }
  }

  /** Bytes appended to a buffer that parses change neither the result nor the addresses. */
  lemma TrailingBytesIgnored(b: Bytes, qlen: int, extra: Bytes)
    requires ParseA(b, qlen).Some?
    ensures ParseA(b + extra, qlen) == ParseA(b, qlen)
  {
    var c := b + extra;
    assert c[6] == b[6] && c[7] == b[7];
    AnswersExtend(b, qlen, U16(b, 6), [], extra);
  }

  /** The same response cut short anywhere in front of the end of its answers fails. */
  lemma TruncatedResponseFails(header: Bytes, question: Bytes, rs: seq<Record>, n: nat)
    requires HeaderOk(header, |rs|) && RecordsOk(rs)
    requires n < 12 + |question| + |EncodeRecords(rs)|
    ensures ParseA((header + question + EncodeRecords(rs))[..n], 12 + |question|) == None
  {
    var b, qlen := header + question + EncodeRecords(rs), 12 + |question|;
    assert |b| == qlen + |EncodeRecords(rs)|;
    hide ParseA; hide EncodeRecords; hide RecordsOk; hide AddressesOk; hide HeaderOk;
    var cut, missing := b[..n], b[n..];
    if ParseA(cut, qlen).Some? {
      TrailingBytesIgnored(cut, qlen, missing);
      assert cut + missing == b && b + [] == b;
      ResponseParses(header, question, rs, []);
      assert false;
    }
  }

  // ---- what is refused, byte by byte -------------------------------------------------------------

  /** A buffer that does not hold header and question, or whose answer count is zero,
      does not parse. */
  lemma Refused(b: Bytes, qlen: int)
    requires |b| < 12 || qlen < 12 || |b| < qlen || (b[6] == 0 && b[7] == 0)
    ensures ParseA(b, qlen) == None
  {
  }

  /** A query asks one question, for the address (type 1, class 1) of the name it holds,
      with recursion desired, and contains no answers. */
  lemma QueryAsks(host: Bytes)
    ensures var q := Query(host);
      && |q| == |host| + 18
      && q[..12] == [0, 0, 1, 0, 0, 1, 0, 0, 0, 0, 0, 0]
      && q[12..|q| - 4] == QName(host)
      && q[|q| - 4..] == [0, 1, 0, 1]
  {
    QNameLength(host);
  }
}
