/** The query builder and the response parser over a byte buffer with a write and a
    read index, proved to write and to read what `DnsMessage` says. */
module DnsUtils {
  import opened Common
  import opened DnsMessage
  import DnsTheorems

  /** The null pointer, where the source returns pointers into the buffer. */
  const NULL := -1

  /** dns_util_host_addrs_t */
  class HostAddrs {
    var nAddrs: nat
    const addrs: array<Bytes>

    ghost predicate Valid()
      reads this
    {
      addrs.Length == MAX_HOST_ADDRESSES && nAddrs <= MAX_HOST_ADDRESSES
    }

    ghost function Found(): seq<Bytes>
      requires Valid()
      reads this, addrs
    {
      addrs[..nAddrs]
    }

    constructor ()
      ensures Valid() && fresh(addrs)
    {
      nAddrs := 0;
      addrs := new Bytes[MAX_HOST_ADDRESSES](_ => []);
    }

    /** Store an address, or drop it when four are known. */
    method Store(a: Bytes)
      requires Valid()
      modifies this, addrs
      ensures Valid() && Found() == Remember(old(Found()), a)
    {
      if nAddrs < MAX_HOST_ADDRESSES {
        addrs[nAddrs] := a;
        nAddrs := nAddrs + 1;
      }
    }
  }

  /** dns_util_t, after dns_util_reset. */
  class DnsUtil {
    const buf: array<Byte>
    const bufLen: nat
    var writeNdx: nat
    var readNdx: nat

    ghost predicate Valid()
      reads this
    {
      bufLen <= buf.Length && writeNdx <= bufLen && readNdx <= bufLen
    }

    ghost function Contents(): Bytes
      requires Valid()
      reads this, buf
    {
      buf[..bufLen]
    }

    constructor (buf: array<Byte>, len: nat)
      requires len <= buf.Length
      ensures Valid() && this.buf == buf && bufLen == len && writeNdx == 0 && readNdx == 0
    {
      this.buf := buf;
      this.bufLen := len;
      this.writeNdx := 0;
      this.readNdx := 0;
    }

    // ---- writing -----------------------------------------------------------------------

    /** dns_util_write_byte */
    method WriteByte(b: Byte) returns (p: int)
      requires Valid()
      modifies this`writeNdx, buf
      ensures Valid()
      ensures p == if old(writeNdx) < bufLen then old(writeNdx) else NULL
      ensures p == NULL ==> writeNdx == old(writeNdx) && buf[..] == old(buf[..])
      ensures p != NULL ==> writeNdx == old(writeNdx) + 1 && buf[..] == old(buf[..])[p := b]
    {
      if bufLen - writeNdx < 1 {
        return NULL;
      }
      p := writeNdx;
      buf[p] := b;
      writeNdx := writeNdx + 1;
    }

    /** A run of bytes stored at the write index; the caller has checked the space. */
    method Append(bytes: Bytes)
      requires Valid() && writeNdx + |bytes| <= bufLen
      modifies this`writeNdx, buf
      ensures Valid() && writeNdx == old(writeNdx) + |bytes|
      ensures buf[..writeNdx] == old(buf[..writeNdx]) + bytes
    {
      ghost var before := buf[..writeNdx];
      var w := writeNdx;
      for i := 0 to |bytes|
        invariant buf[..w + i] == before + bytes[..i]
      {
        buf[w + i] := bytes[i];
        assert buf[..w + i + 1] == before + bytes[..i] + [bytes[i]];
        assert bytes[..i + 1] == bytes[..i] + [bytes[i]];
      }
      writeNdx := w + |bytes|;
      assert bytes[..|bytes|] == bytes;
    }

    /** dns_util_build_qname: succeeds exactly when the name fits, and then appends it. */
    method BuildQName(host: Bytes) returns (ret: int)
      requires Valid()
      modifies this`writeNdx, buf
      ensures Valid()
      ensures ret == if old(writeNdx) + |host| + 2 <= bufLen then 0 else -1
      ensures ret == 0 ==> buf[..writeNdx] == old(buf[..writeNdx]) + QName(host)
    {
      hide Open; hide Split; hide EncodeLabels; hide QName;
      ghost var before := buf[..writeNdx];
      ghost var w := writeNdx;
      var lenPtr := WriteByte(0);
      if lenPtr == NULL {
        return -1;
      }
      assert buf[..writeNdx] == before + [0];
      OpenStart(before);
      for i := 0 to |host|
        invariant Valid() && writeNdx == w + 1 + i
        invariant Open(buf[..writeNdx], before, host[..i], lenPtr)
      {
        assert host[..i + 1] == host[..i] + [host[i]];
        lenPtr := WriteChar(host[i], lenPtr, before, host[..i]);
        if lenPtr == NULL {
          return -1;
        }
      }
      assert host[..|host|] == host;
      ret := EndName(before, host, lenPtr);
    }

    /** The body of the loop of dns_util_build_qname. */
    method WriteChar(c: Byte, lenPtr: int, ghost before: Bytes, ghost h: Bytes) returns (p: int)
      requires Valid() && Open(buf[..writeNdx], before, h, lenPtr)
      modifies this`writeNdx, buf
      ensures Valid()
      ensures p == NULL <==> old(writeNdx) == bufLen
      ensures p != NULL ==> writeNdx == old(writeNdx) + 1 && Open(buf[..writeNdx], before, h + [c], p)
    {
      ghost var written := buf[..writeNdx];
      if c == DOT {
        p := WriteByte(0);
        OpenDot(written, before, h);
        assert p != NULL ==> buf[..writeNdx] == written + [0];
      } else {
        p := WriteByte(c);
        if p == NULL {
          return;
        }
        OpenChar(written, before, h, lenPtr, c);
        buf[lenPtr] := Increment(buf[lenPtr]);
        p := lenPtr;
        assert buf[..writeNdx] == (written + [c])[lenPtr := Increment(written[lenPtr])];
      }
    }

    /** The empty label at the end of a name. */
    method EndName(ghost before: Bytes, ghost host: Bytes, ghost lenPtr: int) returns (ret: int)
      requires Valid() && Open(buf[..writeNdx], before, host, lenPtr)
      modifies this`writeNdx, buf
      ensures Valid()
      ensures ret == if old(writeNdx) < bufLen then 0 else -1
      ensures ret == 0 ==> writeNdx == old(writeNdx) + 1 && buf[..writeNdx] == before + QName(host)
    {
      ghost var written := buf[..writeNdx];
      var p := WriteByte(0);
      if p == NULL {
        return -1;
      }
      assert buf[..writeNdx] == written + [0] == before + (EncodeLabels(Split(host)) + [0]);
      return 0;
    }

    /** dns_util_build_A_query: succeeds exactly when header, name and question fit, and
        then returns the write index behind them. */
    method BuildAQuery(target: Bytes) returns (ret: int)
      requires Valid()
      modifies this`writeNdx, buf
      ensures Valid()
      ensures ret == if old(writeNdx) + |target| + 18 <= bufLen then old(writeNdx) + |target| + 18 else -1
      ensures ret >= 0 ==> writeNdx == ret && buf[..writeNdx] == old(buf[..writeNdx]) + Query(target)
    {
      ghost var before := buf[..writeNdx];
      DnsTheorems.QNameLength(target);
      if bufLen - writeNdx < HEADER_SIZE {
        return -1;
      }
      Append(QUERY_HEADER);
      var r := BuildQName(target);
      if r != 0 {
        return -1;
      }
      assert buf[..writeNdx] == before + QUERY_HEADER + QName(target);
      if bufLen - writeNdx < QUESTION_SIZE {
        return -1;
      }
      Append(QUERY_TAIL);
      assert buf[..writeNdx] == before + Query(target);
      ret := writeNdx;
    }

    // ---- reading -----------------------------------------------------------------------

    /** dns_util_read: the comparison is between unsigned values, so that a negative
        length is never satisfied. */
    method Read(len: int) returns (p: int)
      requires Valid()
      modifies this`readNdx
      ensures Valid()
      ensures p == if 0 <= len <= bufLen - old(readNdx) then old(readNdx) else NULL
      ensures readNdx == if p == NULL then old(readNdx) else old(readNdx) + len
    {
      if len < 0 || bufLen - readNdx < len {
        return NULL;
      }
      p := readNdx;
      readNdx := readNdx + len;
    }

    /** dns_util_parse_qname */
    method ParseQName() returns (ret: int)
      requires Valid()
      modifies this`readNdx
      ensures Valid() && old(readNdx) <= readNdx
      ensures ret == if SkipName(Contents(), old(readNdx)).Some? then 0 else -1
      ensures ret == 0 ==> readNdx == SkipName(Contents(), old(readNdx)).value
    {
      ghost var goal := SkipName(Contents(), readNdx);
      while true
        invariant Valid() && old(readNdx) <= readNdx
        invariant SkipName(Contents(), readNdx) == goal
        decreases bufLen - readNdx
      {
        var b := Read(1);
        if b == NULL {
          return -1;
        }
        assert Contents()[b] == buf[b];
        if buf[b] == 0 {
          break;
        }
        if buf[b] >= 0xC0 {
          var second := Read(1);
          if second == NULL {
            return -1;
          }
          return 0;
        } else {
          var data := Read(buf[b]);
          if data == NULL {
            return -1;
          }
        }
      }
      return 0;
    }

    /** ntohs of the two bytes at `p`. */
    function Short(p: nat): (n: int)
      requires Valid() && p + 2 <= bufLen
      reads this, buf
      ensures n == U16(Contents(), p)
    {
      (buf[p] as int) * 0x100 + (buf[p + 1] as int)
    }

    /** The body of the loop of dns_util_parse_A_response. */
    method ParseAnswer(addrs: HostAddrs) returns (ret: int)
      requires Valid() && addrs.Valid() && addrs.addrs as object != buf
      modifies this`readNdx, addrs, addrs.addrs
      ensures Valid() && addrs.Valid() && old(readNdx) <= readNdx && buf[..] == old(buf[..])
      ensures var a := Answer(Contents(), old(readNdx), old(addrs.Found()));
        && ret == (if a.Some? then 0 else -1)
        && (ret == 0 ==> readNdx == a.value.1 && addrs.Found() == a.value.0)
    {
      hide SkipName; hide U16; hide Remember;
      var r := ParseQName();
      if r != 0 {
        return -1;
      }
      var p := Read(R_DATA_SIZE);
      if p == NULL {
        return -1;
      }
      if Short(p) == T_A && Short(p + 2) == CLASS_IN {
        if Short(p + 8) != 4 {
          return -1;
        }
        var data := Read(4);
        if data == NULL {
          return -1;
        }
        assert Contents()[data..data + 4] == buf[data..data + 4];
        addrs.Store(buf[data..data + 4]);
      } else {
        var skipped := Read(Short(p + 8));
        if skipped == NULL {
          return -1;
        }
      }
      return 0;
    }

    /** dns_util_parse_A_response, from a buffer just reset: on every buffer it ends, with
        the read index inside the buffer, and reports what `ParseA` says. */
    method ParseAResponse(qlen: int, addrs: HostAddrs) returns (ret: int)
      requires Valid() && readNdx == 0 && addrs.Valid() && addrs.addrs as object != buf
      modifies this`readNdx, addrs, addrs.addrs
      ensures Valid() && addrs.Valid()
      ensures bufLen < 12 || qlen < 12 || bufLen < qlen || (buf[6] == 0 && buf[7] == 0) ==> ret == -1
      ensures ret == if ParseA(Contents(), qlen).Some? then 0 else -1
      ensures ret == 0 ==> readNdx == ParseA(Contents(), qlen).value.1
      ensures ret == 0 ==> addrs.Found() == ParseA(Contents(), qlen).value.0
    {
      assert bufLen < 12 || qlen < 12 || bufLen < qlen || (buf[6] == 0 && buf[7] == 0) ==>
          ParseA(Contents(), qlen) == None
      by {
        if bufLen < 12 || qlen < 12 || bufLen < qlen || (buf[6] == 0 && buf[7] == 0) {
          DnsTheorems.Refused(Contents(), qlen);
        }
      }
      hide Answer; hide Answers; hide ParseA; hide U16;
      var h := Read(HEADER_SIZE);
      if h == NULL {
        return -1;
      }
      var ansCount := Short(h + 6);
      if ansCount < 1 {
        return -1;
      }
      addrs.nAddrs := 0;
      var rest := Read(qlen - HEADER_SIZE);
      if rest == NULL {
        return -1;
      }
      ghost var b := Contents();
      AnswersBegin(b, qlen);
      assert addrs.Found() == [];
      for i := 0 to ansCount
        invariant Valid() && addrs.Valid() && Contents() == b
        invariant Answers(b, readNdx, ansCount - i, addrs.Found()) == ParseA(b, qlen)
      {
        NextAnswer(b, readNdx, ansCount - i, addrs.Found());
        var r := ParseAnswer(addrs);
        if r != 0 {
          return -1;
        }
      }
      NoMoreAnswers(b, readNdx, addrs.Found());
      return 0;
    }
  }

  lemma AnswersBegin(b: Bytes, qlen: int)
    requires |b| >= HEADER_SIZE && U16(b, 6) >= 1 && HEADER_SIZE <= qlen <= |b|
    ensures ParseA(b, qlen) == Answers(b, qlen, U16(b, 6), [])
  {
  }

  lemma NextAnswer(b: Bytes, pos: nat, count: nat, found: seq<Bytes>)
    requires pos <= |b| && count > 0
    ensures var a := Answer(b, pos, found);
      Answers(b, pos, count, found) == if a.None? then None else Answers(b, a.value.1, count - 1, a.value.0)
  {
  }

  lemma NoMoreAnswers(b: Bytes, pos: nat, found: seq<Bytes>)
    requires pos <= |b|
    ensures Answers(b, pos, 0, found) == Some((found, pos))
  {
  }

  /** An unsigned byte plus one, which wraps around. */
  function Increment(b: Byte): Byte {
    ((b as int) + 1) % 0x100
  }

  /** The labels of `h` stand behind `before`, and `lenPtr` is the length byte of the last
      of them. */
  ghost predicate Open(written: Bytes, before: Bytes, h: Bytes, lenPtr: int) {
    var ls := Split(h);
    && written == before + EncodeLabels(ls)
    && lenPtr == |before| + |EncodeLabels(ls[..|ls| - 1])|
  }

  lemma OpenStart(before: Bytes)
    ensures Open(before + [0], before, [], |before|)
  {
    var none: seq<Bytes> := [];
    assert Split([]) == none + [[]];
    DnsTheorems.EncodeLast(none, []);
  }

  lemma OpenDot(written: Bytes, before: Bytes, h: Bytes)
    requires written == before + EncodeLabels(Split(h))
    ensures Open(written + [0], before, h + [DOT], |written|)
  {
    var g, ls := h + [DOT], Split(h);
    assert g[..|g| - 1] == h;
    assert Split(g) == ls + [[]] && (ls + [[]])[..|ls|] == ls;
    DnsTheorems.EncodeDot(h);
    assert before + EncodeLabels(ls) + [0] == before + (EncodeLabels(ls) + [0]);
  }

  lemma OpenChar(written: Bytes, before: Bytes, h: Bytes, lenPtr: int, c: Byte)
    requires Open(written, before, h, lenPtr) && c != DOT
    ensures 0 <= lenPtr < |written|
    ensures Open((written + [c])[lenPtr := Increment(written[lenPtr])], before, h + [c], lenPtr)
  {
    hide EncodeLabels;
    hide Split;
    var g, ls := h + [c], Split(h);
    var m := |ls| - 1;
    var e, l := EncodeLabels(ls[..m]), ls[m];
    DnsTheorems.SplitExtends(h, c);
    assert Split(g)[..m] == ls[..m] && |Split(g)| == |ls|;
    DnsTheorems.EncodeSplit(h);
    DnsTheorems.EncodeChar(h, c);
    Bump(written, before, e, |l| % 0x100, l, c);
  }

  lemma Bump(written: Bytes, before: Bytes, e: Bytes, n: Byte, l: Bytes, c: Byte)
    requires written == before + (e + [n] + l)
    ensures var p := |before| + |e|;
      && p < |written| && written[p] == n
      && (written + [c])[p := Increment(n)] == before + (e + [Increment(n)] + (l + [c]))
  {
  }
}
