// Netlink attributes: the builder qmark_tc_addattr of kmod/qos_marktbl_tc.c, nests closed by
// writing the length of their first attribute afterwards, and the three messages built with
// it. Attribute headers are little-endian; the format is that of section 2.3.2 of RFC 3549.

module Netlink {
  import opened Word32
  import opened Model

  const HEADER: nat := 36      // struct nlmsghdr and struct tcmsg
  const CAPACITY: nat := 4132  // sizeof(struct rtnl_req): HEADER and TCA_BUF_MAX

  // Attribute numbers of the kernel's rtnetlink and pkt_sched headers.
  const TCA_KIND: nat := 1
  const TCA_OPTIONS: nat := 2
  const TCA_HTB_PARMS: nat := 1
  const TCA_HTB_CTAB: nat := 3
  const TCA_HTB_RTAB: nat := 4
  const TCA_FW_CLASSID: nat := 1
  const TCA_FW_MASK: nat := 5

  datatype Attr = Attr(kind: nat, payload: seq<uint8>)

  /** RTA_ALIGN and NLMSG_ALIGN */
  function Align4(n: nat): (r: nat)
    ensures n <= r < n + 4 && r % 4 == 0
    ensures n % 4 == 0 ==> r == n
  {
    (n + 3) / 4 * 4
  }

  function U16(x: nat): (b: seq<uint8>)
    ensures |b| == 2
  {
    [x % 0x100, x / 0x100 % 0x100]
  }

  function FromU16(b: seq<uint8>, i: nat): nat
    requires i + 2 <= |b|
  {
    var lo: nat, hi: nat := b[i], b[i + 1];
    lo + hi * 0x100
  }

  function Zeros(n: nat): (z: seq<uint8>)
    ensures |z| == n && forall i | 0 <= i < n :: z[i] == 0
  {
    if n == 0 then [] else Zeros(n - 1) + [0]
  }

  predicate Encodable(a: Attr) { a.kind < 0x1_0000 && 4 + |a.payload| < 0x1_0000 }

  function AttrHeader(kind: nat, len: nat): (b: seq<uint8>)
    ensures |b| == 4
  {
    U16(len) + U16(kind)
  }

  /** One attribute: length and type, payload, padding to a multiple of 4. */
  function Encode(a: Attr): (b: seq<uint8>)
    ensures |b| == Align4(4 + |a.payload|) && |b| % 4 == 0
  {
    AttrHeader(a.kind, 4 + |a.payload|) + a.payload + Zeros(Align4(4 + |a.payload|) - 4 - |a.payload|)
  }

  function EncodeAll(attrs: seq<Attr>): (b: seq<uint8>)
    ensures |b| % 4 == 0
  {
    if attrs == [] then [] else EncodeAll(attrs[..|attrs| - 1]) + Encode(attrs[|attrs| - 1])
  }

  /** Reads a list of attributes back; the reference reading of the format. */
  function Parse(b: seq<uint8>): Option<seq<Attr>>
    decreases |b|
  {
    if b == [] then Some([])
    else if |b| < 4 then None
    else
      var len := FromU16(b, 0);
      if len < 4 || Align4(len) > |b| then None
      else
        match Parse(b[Align4(len)..])
        case None => None
        case Some(rest) => Some([Attr(FromU16(b, 2), b[4..len])] + rest)
  }

  /** The list starts with an attribute of this length and type, behind which, from the next multiple of 4 on, it goes on. */
  ghost predicate StartsWith(b: seq<uint8>, len: nat, kind: nat)
    requires Parse(b).Some?
  {
    var end := (len + 3) / 4 * 4;
    && 4 <= len <= end <= |b| && Parse(b[end..]).Some?
    && Parse(b).value == [Attr(kind, b[4..len])] + Parse(b[end..]).value
  }

  /** What a reader sees of an attribute: its length and its type from two bytes each, the low one first, then the payload. */
  lemma ParseReads(b: seq<uint8>)
    ensures b == [] ==> Parse(b) == Some([])
    ensures Parse(b).Some? && b != [] ==> |b| >= 4 && StartsWith(b, LowFirst(b[0], b[1]), LowFirst(b[2], b[3]))
  {
    if Parse(b).Some? && b != [] {
      assert |b| >= 4;
      ReadU16(b, 0);
      ReadU16(b, 2);
      ParseFirst(b, LowFirst(b[0], b[1]), LowFirst(b[2], b[3]));
    }
  }

  lemma ParseFirst(b: seq<uint8>, len: nat, kind: nat)
    requires Parse(b).Some? && |b| >= 4 && len == FromU16(b, 0) && kind == FromU16(b, 2)
    ensures StartsWith(b, len, kind)
  {
    assert Align4(len) == (len + 3) / 4 * 4;
  }

  function LowFirst(lo: uint8, hi: uint8): nat {
    var l: nat, h: nat := lo, hi;
    l + 256 * h
  }

  lemma ReadU16(b: seq<uint8>, i: nat)
    requires i + 2 <= |b|
    ensures FromU16(b, i) == LowFirst(b[i], b[i + 1])
  {
  }

  /** The payload of the first attribute of a type, empty if there is none. */
  function Find(attrs: seq<Attr>, kind: nat): seq<uint8> {
    if attrs == [] then [] else if attrs[0].kind == kind then attrs[0].payload else Find(attrs[1..], kind)
  }

  /** The same, out of the bytes of a list. */
  function Read(b: seq<uint8>, kind: nat): seq<uint8> {
    match Parse(b)
    case None => []
    case Some(attrs) => Find(attrs, kind)
  }

  lemma EncodeSplit(a: Attr, tail: seq<uint8>)
    requires Encodable(a)
    ensures var b := Encode(a) + tail;
            && |b| >= 4 && FromU16(b, 0) == 4 + |a.payload| && FromU16(b, 2) == a.kind
            && Align4(4 + |a.payload|) <= |b|
            && b[4..4 + |a.payload|] == a.payload && b[Align4(4 + |a.payload|)..] == tail
  {
  }

  lemma ParseCons(a: Attr, tail: seq<uint8>)
    requires Encodable(a)
    ensures Parse(Encode(a) + tail) == match Parse(tail) case None => None case Some(rest) => Some([a] + rest)
  {
    EncodeSplit(a, tail);
  }

  /** Parsing undoes encoding, for every list of attributes whose numbers and lengths fit 16 bits. */
  lemma {:induction false} ParseEncoded(attrs: seq<Attr>, tail: seq<uint8>)
    requires forall a | a in attrs :: Encodable(a)
    ensures Parse(EncodeAll(attrs) + tail) == match Parse(tail) case None => None case Some(rest) => Some(attrs + rest)
    decreases |attrs|
  {
    if attrs == [] {
      assert EncodeAll(attrs) + tail == tail;
      if Parse(tail).Some? { assert attrs + Parse(tail).value == Parse(tail).value; }
    } else {
      var n := |attrs| - 1;
      var init, last := attrs[..n], attrs[n];
      assert EncodeAll(attrs) + tail == EncodeAll(init) + (Encode(last) + tail);
      ParseEncoded(init, Encode(last) + tail);
      ParseCons(last, tail);
      if Parse(tail).Some? { Regroup(attrs, Parse(tail).value); }
    }
  }

  lemma Regroup(attrs: seq<Attr>, rest: seq<Attr>)
    requires attrs != []
    ensures attrs[..|attrs| - 1] + ([attrs[|attrs| - 1]] + rest) == attrs + rest
  {
  }

  lemma RoundTrip(attrs: seq<Attr>)
    requires forall a | a in attrs :: Encodable(a)
    ensures Parse(EncodeAll(attrs)) == Some(attrs)
  {
    ParseEncoded(attrs, []);
    assert EncodeAll(attrs) + [] == EncodeAll(attrs);
    assert attrs + [] == attrs;
  }

  lemma EncodeSnoc(attrs: seq<Attr>, a: Attr)
    ensures EncodeAll(attrs + [a]) == EncodeAll(attrs) + Encode(a)
  {
  }

  /** A closed nest: an empty attribute followed by its children becomes one attribute around them. */
  lemma NestClosed(kind: nat, kids: seq<uint8>)
    requires |kids| % 4 == 0
    ensures Encode(Attr(kind, kids)) == AttrHeader(kind, 4 + |kids|) + kids
    ensures Encode(Attr(kind, [])) == AttrHeader(kind, 4)
  {
  }

  // -- writing into a buffer --

  /** s with the bytes d written at offset at. */
  function Put(s: seq<uint8>, at: nat, d: seq<uint8>): (r: seq<uint8>)
    requires at + |d| <= |s|
    ensures |r| == |s|
  {
    s[..at] + d + s[at + |d|..]
  }

  predicate ZeroFrom(s: seq<uint8>, i: nat) { forall k | i <= k < |s| :: s[k] == 0 }

  /** Adjacent writes are one write. */
  lemma PutPut(s: seq<uint8>, at: nat, d: seq<uint8>, e: seq<uint8>)
    requires at + |d| + |e| <= |s|
    ensures Put(Put(s, at, d), at + |d|, e) == Put(s, at, d + e)
    ensures Put(Put(s, at + |d|, e), at, d) == Put(s, at, d + e)
  {
  }

  /** An attribute written over zeros is padded by what is there already. */
  lemma PutAttr(s: seq<uint8>, at: nat, a: Attr)
    requires at + Align4(4 + |a.payload|) <= |s| && ZeroFrom(s, at)
    ensures Put(s, at, AttrHeader(a.kind, 4 + |a.payload|) + a.payload) == Put(s, at, Encode(a))
  {
  }

  lemma PutAtEnd(s: seq<uint8>, lo: nat, at: nat, d: seq<uint8>)
    requires lo <= at && at + |d| <= |s| && ZeroFrom(s, at)
    ensures Put(s, at, d)[lo..at + |d|] == s[lo..at] + d
    ensures ZeroFrom(Put(s, at, d), at + |d|)
  {
  }

  lemma PutSlice(s: seq<uint8>, lo: nat, at: nat, d: seq<uint8>, hi: nat)
    requires lo <= at && at + |d| <= hi <= |s|
    ensures Put(s, at, d)[lo..hi] == s[lo..at] + d + s[at + |d|..hi]
  {
  }

  /** Overwriting the length of a nest's first attribute turns that attribute into the nest. */
  lemma PutLength(s: seq<uint8>, lo: nat, hi: nat, before: seq<uint8>, kind: nat, kids: seq<uint8>)
    requires lo <= hi <= |s| && |kids| % 4 == 0 && s[lo..hi] == before + Encode(Attr(kind, [])) + kids
    ensures lo + |before| + 4 + |kids| == hi
    ensures Put(s, lo + |before|, U16(4 + |kids|))[lo..hi] == before + Encode(Attr(kind, kids))
  {
    NestClosed(kind, kids);
    var tail := lo + |before|;
    assert s[lo..hi] == before + U16(4) + (U16(kind) + kids);
    assert s[lo..tail] == s[lo..hi][..|before|] == before;
    assert s[tail + 2..hi] == s[lo..hi][|before| + 2..] == U16(kind) + kids;
    PutSlice(s, lo, tail, U16(4 + |kids|), hi);
  }

  /** struct rtnl_req with the length field of its header. */
  class Request {
    const buf: array<uint8>
    var len: nat

    ghost predicate Valid()
      reads this, buf
    {
      buf.Length == CAPACITY && HEADER <= len <= CAPACITY && len % 4 == 0 && ZeroFrom(buf[..], len)
    }

    /** The attributes so far. */
    ghost function Body(): seq<uint8>
      reads this, buf
      requires Valid()
    {
      buf[..][HEADER..len]
    }

    /** memset, and the length of a message without attributes. */
    constructor ()
      ensures Valid() && fresh(buf) && Body() == []
    {
      buf := new uint8[CAPACITY](_ => 0);
      len := HEADER;
    }

    method Write(at: nat, d: seq<uint8>)
      requires at + |d| <= buf.Length
      modifies buf
      ensures buf[..] == Put(old(buf[..]), at, d)
    {
      forall i | 0 <= i < |d| { buf[at + i] := d[i]; }
    }

    /** qmark_tc_addattr. A refused call changes nothing. */
    method AddAttr(maxlen: nat, kind: nat, data: seq<uint8>) returns (ok: bool)
      requires Valid() && Encodable(Attr(kind, data))
      requires len + Align4(4 + |data|) <= maxlen ==> len + Align4(4 + |data|) <= CAPACITY
      modifies this`len, buf
      ensures Valid()
      ensures ok <==> old(len) + Align4(4 + |data|) <= maxlen
      ensures ok ==> Body() == old(Body()) + Encode(Attr(kind, data)) && len == old(len) + Align4(4 + |data|)
      ensures !ok ==> buf[..] == old(buf[..]) && len == old(len)
    {
      var n := 4 + |data|;
      if Align4(len) + Align4(n) > maxlen {
        return false;
      }
      ghost var s := buf[..];
      WriteAttr(Align4(len), kind, data);
      len := Align4(len) + Align4(n);
      PutAtEnd(s, HEADER, old(len), Encode(Attr(kind, data)));
      return true;
    }

    /** The three writes of qmark_tc_addattr. */
    method WriteAttr(rta: nat, kind: nat, data: seq<uint8>)
      requires rta + Align4(4 + |data|) <= buf.Length && ZeroFrom(buf[..], rta)
      modifies buf
      ensures buf[..] == Put(old(buf[..]), rta, Encode(Attr(kind, data)))
    {
      ghost var s, n := buf[..], 4 + |data|;
      PutPut(s, rta, U16(n), U16(kind));
      PutPut(s, rta, AttrHeader(kind, n), data);
      PutAttr(s, rta, Attr(kind, data));
      Write(rta + 2, U16(kind));
      Write(rta, U16(4 + |data|));
      Write(rta + 4, data);
    }

    /** tail->rta_len = NLMSG_TAIL(n) - tail, for the nest of that kind opened behind before. */
    method CloseNest(tail: nat, ghost kind: nat, ghost before: seq<uint8>, ghost kids: seq<uint8>)
      requires Valid() && tail == HEADER + |before| && len - tail < 0x1_0000 && |kids| % 4 == 0
      requires Body() == before + Encode(Attr(kind, [])) + kids
      modifies buf
      ensures Valid() && Body() == before + Encode(Attr(kind, kids))
    {
      PutLength(buf[..], HEADER, len, before, kind, kids);
      Write(tail, U16(Align4(len) - tail));
    }
  }

  // -- the three messages --

  const HTB: seq<uint8> := [0x68, 0x74, 0x62, 0]                  // "htb", 4 bytes
  const PFIFO: seq<uint8> := [0x70, 0x66, 0x69, 0x66, 0x6f, 0]    // "pfifo", 6 bytes
  const FW: seq<uint8> := [0x66, 0x77, 0]                         // "fw", 3 bytes
  const HTB_OPT_SIZE: nat := 44                                   // sizeof(struct tc_htb_opt)
  const FILTER_MASK: uint32 := 0xfff800

  /** Little-endian bytes of a table of words. */
  function Bytes32(ws: seq<uint32>): (b: seq<uint8>)
    ensures |b| == 4 * |ws|
  {
    if ws == [] then [] else Bytes32(ws[..|ws| - 1]) + LeBytes(ws[|ws| - 1])
  }

  lemma {:induction false} Bytes32At(ws: seq<uint32>, i: nat)
    requires i < |ws|
    ensures WordAt(Bytes32(ws), 4 * i) == ws[i]
    decreases |ws|
  {
    var n := |ws| - 1;
    var b, last := Bytes32(ws[..n]), LeBytes(ws[n]);
    assert Bytes32(ws) == b + last;
    if i < n {
      Bytes32At(ws[..n], i);
      assert forall j | 4 * i <= j < 4 * i + 4 :: Bytes32(ws)[j] == b[j];
    } else {
      assert forall j | 0 <= j < 4 :: Bytes32(ws)[4 * n + j] == last[j];
    }
  }

  function ClassOptions(parms: seq<uint8>, rtab: seq<uint32>, ctab: seq<uint32>): seq<Attr> {
    [Attr(TCA_HTB_PARMS, parms), Attr(TCA_HTB_RTAB, Bytes32(rtab)), Attr(TCA_HTB_CTAB, Bytes32(ctab))]
  }

  function FilterOptions(flowid: uint32): seq<Attr> {
    [Attr(TCA_FW_MASK, LeBytes(FILTER_MASK)), Attr(TCA_FW_CLASSID, LeBytes(flowid))]
  }

  /** The body parses as the kind followed by one nest, and the nest as the given options. */
  ghost predicate IsNested(body: seq<uint8>, name: seq<uint8>, options: seq<Attr>) {
    && Parse(body) == Some([Attr(TCA_KIND, name), Attr(TCA_OPTIONS, EncodeAll(options))])
    && Parse(EncodeAll(options)) == Some(options)
  }

  /** The bytes are these words, each from four bytes, the low one first. */
  ghost predicate HoldsWords(b: seq<uint8>, ws: seq<uint32>) {
    |b| == 4 * |ws| && forall i | 0 <= i < |ws| :: WordAt(b, 4 * i) == ws[i]
  }

  lemma WordsHeld(ws: seq<uint32>)
    ensures HoldsWords(Bytes32(ws), ws)
  {
    forall i | 0 <= i < |ws| ensures WordAt(Bytes32(ws), 4 * i) == ws[i] { Bytes32At(ws, i); }
  }

  /** A reader of the nest finds the parameters under type 1, the ceil table under 3 and the rate table under 4. */
  ghost predicate HoldsClass(nest: seq<uint8>, parms: seq<uint8>, rtab: seq<uint32>, ctab: seq<uint32>) {
    Read(nest, 1) == parms && HoldsWords(Read(nest, 3), ctab) && HoldsWords(Read(nest, 4), rtab)
  }

  /** A reader of the nest finds the class id under type 1 and the mask 0xfff800 under type 5. */
  ghost predicate HoldsFilter(nest: seq<uint8>, flowid: uint32) {
    HoldsWords(Read(nest, 1), [flowid]) && HoldsWords(Read(nest, 5), [0xfff800])
  }

  lemma ClassOptionsRead(parms: seq<uint8>, rtab: seq<uint32>, ctab: seq<uint32>)
    requires |parms| == HTB_OPT_SIZE && |rtab| == |ctab| == 256
    ensures HoldsClass(EncodeAll(ClassOptions(parms, rtab, ctab)), parms, rtab, ctab)
  {
    var o := ClassOptions(parms, rtab, ctab);
    RoundTrip(o);
    WordsHeld(rtab);
    WordsHeld(ctab);
    FindThird(o, 1);
    FindThird(o, 3);
    FindThird(o, 4);
  }

  lemma FilterOptionsRead(flowid: uint32)
    ensures HoldsFilter(EncodeAll(FilterOptions(flowid)), flowid)
  {
    var o := FilterOptions(flowid);
    RoundTrip(o);
    FindSecond(o, 1);
    FindSecond(o, 5);
  }

  lemma FindSecond(o: seq<Attr>, kind: nat)
    requires |o| == 2
    ensures Find(o, kind) == if o[0].kind == kind then o[0].payload else if o[1].kind == kind then o[1].payload else []
  {
    assert o[1..][1..] == [];
    assert Find(o[1..], kind) == if o[1].kind == kind then o[1].payload else [];
  }

  lemma FindThird(o: seq<Attr>, kind: nat)
    requires |o| == 3
    ensures Find(o, kind) == if o[0].kind == kind then o[0].payload else if o[1].kind == kind then o[1].payload
                             else if o[2].kind == kind then o[2].payload else []
  {
    FindSecond(o[1..], kind);
  }

  /** A kind and a nest: the reader finds them under types 1 and 2. */
  lemma NestedRead(body: seq<uint8>, name: seq<uint8>, options: seq<Attr>)
    requires IsNested(body, name, options)
    ensures Read(body, 1) == name && Read(body, 2) == EncodeAll(options)
  {
    FindSecond([Attr(TCA_KIND, name), Attr(TCA_OPTIONS, EncodeAll(options))], 1);
    FindSecond([Attr(TCA_KIND, name), Attr(TCA_OPTIONS, EncodeAll(options))], 2);
  }

  lemma TwoEncoded(a: Attr, b: Attr)
    ensures EncodeAll([a]) == Encode(a) && EncodeAll([a, b]) == Encode(a) + Encode(b)
  {
  }

  lemma NestedParses(name: seq<uint8>, options: seq<Attr>)
    requires Encodable(Attr(TCA_KIND, name)) && Encodable(Attr(TCA_OPTIONS, EncodeAll(options)))
    requires forall a | a in options :: Encodable(a)
    ensures IsNested(Encode(Attr(TCA_KIND, name)) + Encode(Attr(TCA_OPTIONS, EncodeAll(options))), name, options)
  {
    TwoEncoded(Attr(TCA_KIND, name), Attr(TCA_OPTIONS, EncodeAll(options)));
    RoundTrip([Attr(TCA_KIND, name), Attr(TCA_OPTIONS, EncodeAll(options))]);
    RoundTrip(options);
  }

  /** tc_htb_opt_parse: the nested options of a new class. No call is refused. */
  method AddClassOptions(r: Request, parms: seq<uint8>, rtab: seq<uint32>, ctab: seq<uint32>)
    requires r.Valid() && r.len == HEADER + 8 && |parms| == HTB_OPT_SIZE && |rtab| == |ctab| == 256
    modifies r`len, r.buf
    ensures r.Valid()
    ensures r.Body() == old(r.Body()) + Encode(Attr(TCA_OPTIONS, EncodeAll(ClassOptions(parms, rtab, ctab))))
    ensures HoldsClass(EncodeAll(ClassOptions(parms, rtab, ctab)), parms, rtab, ctab)
    ensures r.len == 2152
  {
    ClassOptionsRead(parms, rtab, ctab);
    var tail := Align4(r.len);
    OpenClassOptions(r, parms, rtab, ctab);
    r.CloseNest(tail, TCA_OPTIONS, old(r.Body()), EncodeAll(ClassOptions(parms, rtab, ctab)));
  }

  /** The same before the nest is closed. */
  method OpenClassOptions(r: Request, parms: seq<uint8>, rtab: seq<uint32>, ctab: seq<uint32>)
    requires r.Valid() && r.len == HEADER + 8 && |parms| == HTB_OPT_SIZE && |rtab| == |ctab| == 256
    modifies r`len, r.buf
    ensures r.Valid() && r.len == 2152
    ensures r.Body() == old(r.Body()) + Encode(Attr(TCA_OPTIONS, [])) + EncodeAll(ClassOptions(parms, rtab, ctab))
  {
    ClassOptionsEncoded(parms, rtab, ctab);
    ghost var before, o := r.Body(), ClassOptions(parms, rtab, ctab);
    Chain(before, Encode(Attr(TCA_OPTIONS, [])), Encode(o[0]), Encode(o[1]), Encode(o[2]));
    var ok1 := r.AddAttr(1024, TCA_OPTIONS, []);
    var ok2 := r.AddAttr(2024, TCA_HTB_PARMS, parms);
    var ok3 := r.AddAttr(3024, TCA_HTB_RTAB, Bytes32(rtab));
    var ok4 := r.AddAttr(4024, TCA_HTB_CTAB, Bytes32(ctab));
    assert ok1 && ok2 && ok3 && ok4;
  }

  lemma Chain(a: seq<uint8>, b: seq<uint8>, c: seq<uint8>, d: seq<uint8>, e: seq<uint8>)
    ensures a + b + c + d + e == a + b + (c + d + e)
  {
  }

  lemma ClassOptionsEncoded(parms: seq<uint8>, rtab: seq<uint32>, ctab: seq<uint32>)
    ensures var o := ClassOptions(parms, rtab, ctab);
            EncodeAll(o) == Encode(o[0]) + Encode(o[1]) + Encode(o[2])
  {
    var o := ClassOptions(parms, rtab, ctab);
    TwoEncoded(o[0], o[1]);
    EncodeSnoc([o[0], o[1]], o[2]);
    assert [o[0], o[1]] + [o[2]] == o;
  }

  /** tc_htb_class_modify: the options only go into a message that adds the class. */
  method BuildClass(isNew: bool, parms: seq<uint8>, rtab: seq<uint32>, ctab: seq<uint32>) returns (r: Request)
    requires |parms| == HTB_OPT_SIZE && |rtab| == |ctab| == 256
    ensures r.Valid()
    ensures if isNew then IsNested(r.Body(), HTB, ClassOptions(parms, rtab, ctab)) && HoldsClass(Read(r.Body(), 2), parms, rtab, ctab)
            else Parse(r.Body()) == Some([Attr(TCA_KIND, HTB)])
    ensures Read(r.Body(), 1) == [0x68, 0x74, 0x62, 0]
  {
    r := new Request();
    var ok := r.AddAttr(CAPACITY, TCA_KIND, HTB);
    assert r.Body() == Encode(Attr(TCA_KIND, HTB));
    KindRead();
    if isNew {
      AddClassOptions(r, parms, rtab, ctab);
      ClassRead(r.Body(), parms, rtab, ctab);
    }
  }

  lemma KindRead()
    ensures Parse(Encode(Attr(TCA_KIND, HTB))) == Some([Attr(TCA_KIND, HTB)])
    ensures Read(Encode(Attr(TCA_KIND, HTB)), 1) == [0x68, 0x74, 0x62, 0]
  {
    TwoEncoded(Attr(TCA_KIND, HTB), Attr(TCA_KIND, HTB));
    RoundTrip([Attr(TCA_KIND, HTB)]);
  }

  lemma ClassRead(body: seq<uint8>, parms: seq<uint8>, rtab: seq<uint32>, ctab: seq<uint32>)
    requires |parms| == HTB_OPT_SIZE && |rtab| == |ctab| == 256
    requires body == Encode(Attr(TCA_KIND, HTB)) + Encode(Attr(TCA_OPTIONS, EncodeAll(ClassOptions(parms, rtab, ctab))))
    ensures IsNested(body, HTB, ClassOptions(parms, rtab, ctab)) && HoldsClass(Read(body, 2), parms, rtab, ctab)
    ensures Read(body, 1) == [0x68, 0x74, 0x62, 0]
  {
    ClassOptionsEncoded(parms, rtab, ctab);
    NestedParses(HTB, ClassOptions(parms, rtab, ctab));
    NestedRead(body, HTB, ClassOptions(parms, rtab, ctab));
    ClassOptionsRead(parms, rtab, ctab);
  }

  /** tc_pfifo_qdisc_modify for a new queue: a plain options attribute with the packet limit. */
  method BuildQdisc() returns (r: Request)
    ensures r.Valid()
    ensures Parse(r.Body()) == Some([Attr(TCA_KIND, PFIFO), Attr(TCA_OPTIONS, LeBytes(100))])
    ensures Read(r.Body(), 1) == [0x70, 0x66, 0x69, 0x66, 0x6f, 0] && HoldsWords(Read(r.Body(), 2), [100])
  {
    r := new Request();
    var ok1 := r.AddAttr(CAPACITY, TCA_KIND, PFIFO);
    var ok2 := r.AddAttr(1024, TCA_OPTIONS, LeBytes(100));
    TwoEncoded(Attr(TCA_KIND, PFIFO), Attr(TCA_OPTIONS, LeBytes(100)));
    assert r.Body() == Encode(Attr(TCA_KIND, PFIFO)) + Encode(Attr(TCA_OPTIONS, LeBytes(100)));
    RoundTrip([Attr(TCA_KIND, PFIFO), Attr(TCA_OPTIONS, LeBytes(100))]);
    FindSecond([Attr(TCA_KIND, PFIFO), Attr(TCA_OPTIONS, LeBytes(100))], 1);
    FindSecond([Attr(TCA_KIND, PFIFO), Attr(TCA_OPTIONS, LeBytes(100))], 2);
  }

  /** tc_fw_filter_modify: mask and class id in one nest, whether the filter is added or deleted. */
  method BuildFilter(flowid: uint32) returns (r: Request)
    ensures r.Valid() && IsNested(r.Body(), FW, FilterOptions(flowid))
    ensures Read(r.Body(), 1) == [0x66, 0x77, 0] && HoldsFilter(Read(r.Body(), 2), flowid)
  {
    r := new Request();
    var ok := r.AddAttr(CAPACITY, TCA_KIND, FW);
    assert r.Body() == Encode(Attr(TCA_KIND, FW));
    var tail := Align4(r.len);
    OpenFilterOptions(r, flowid);
    r.CloseNest(tail, TCA_OPTIONS, Encode(Attr(TCA_KIND, FW)), EncodeAll(FilterOptions(flowid)));
    NestedParses(FW, FilterOptions(flowid));
    NestedRead(r.Body(), FW, FilterOptions(flowid));
    FilterOptionsRead(flowid);
  }

  method OpenFilterOptions(r: Request, flowid: uint32)
    requires r.Valid() && r.len == HEADER + 8
    modifies r`len, r.buf
    ensures r.Valid() && r.len == HEADER + 28
    ensures r.Body() == old(r.Body()) + Encode(Attr(TCA_OPTIONS, [])) + EncodeAll(FilterOptions(flowid))
  {
    ghost var o := FilterOptions(flowid);
    TwoEncoded(o[0], o[1]);
    Chain(r.Body(), Encode(Attr(TCA_OPTIONS, [])), Encode(o[0]), Encode(o[1]), []);
    var ok1 := r.AddAttr(4096, TCA_OPTIONS, []);
    var ok2 := r.AddAttr(16384, TCA_FW_MASK, LeBytes(FILTER_MASK));
    var ok3 := r.AddAttr(4096, TCA_FW_CLASSID, LeBytes(flowid));
    assert ok1 && ok2 && ok3;
  }
}
