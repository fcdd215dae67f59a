/**
 QMI messages (QMIThread.c): requests built TLV by TLV into a buffer, the three nested length
 fields, and the walk that finds a TLV again.
 */
module QmiTlv {
  import opened Bytes
  import opened Arith

  const BUFFER_SIZE := 256          // WDM_DEFAULT_BUFSIZE
  const HEADERS := 13               // QCQMI_HDR, QCQMUX_HDR and QCQMUX_MSG_HDR: 6, 3 and 4 bytes
  const BY_INDEX := 0x1000
  const WRAP := 0x1_0000            // lengths have 16 bits

  datatype Tlv = Tlv(t: byte, value: seq<byte>)

  function Low(n: nat): byte {
    n % 256
  }

  /** A 16-bit field, the low byte first. */
  function Le16(n: nat): (s: seq<byte>)
    ensures |s| == 2
  {
    [Low(n), Low(n / 256)]
  }

  function ReadLe16(s: seq<byte>, at: nat): nat
    requires at + 2 <= |s|
  {
    U16(s[at + 1], s[at])
  }

  lemma Le16RoundTrip(n: nat)
    requires n < WRAP
    ensures Low(n) + 256 * Low(n / 256) == n
  {
    var q, r := DivParts(n, 256);
    DivUnique(q, 256, 0, q);
  }

  lemma LowHigh(n: nat)
    ensures Low(n) as int + 0x100 * Low(n / 256) as int == n % WRAP
  {
    var q, r := DivParts(n, 256);
    var p, t := DivParts(q, 256);
    DivUnique(n, WRAP, p, 256 * t + r);
  }

  function TlvBytes(x: Tlv): (s: seq<byte>)
    ensures |s| == |x.value| + 3
  {
    [x.t] + Le16(|x.value|) + x.value
  }

  /** Type, length and value of an encoded TLV. */
  lemma TlvFields(x: Tlv)
    requires |x.value| < WRAP
    ensures
      var s := TlvBytes(x);
      s[0] == x.t && s[1] as int + 0x100 * s[2] as int == |x.value| && s[3..] == x.value
  {
    Le16RoundTrip(|x.value|);
    hide Low;
  }

  function Encode(tlvs: seq<Tlv>): seq<byte> {
    if tlvs == [] then [] else TlvBytes(tlvs[0]) + Encode(tlvs[1..])
  }

  lemma {:induction false} EncodeSnoc(tlvs: seq<Tlv>, x: Tlv)
    ensures Encode(tlvs + [x]) == Encode(tlvs) + TlvBytes(x)
  {
    hide TlvBytes;
    if tlvs == [] {
      assert [x][1..] == [];
      assert Encode([x]) == TlvBytes(x) + Encode([]);
    } else {
      assert (tlvs + [x])[1..] == tlvs[1..] + [x];
      EncodeSnoc(tlvs[1..], x);
    }
  }

  // ---------------------------------------------------------------------------------------
  // Finding a TLV

  /** The place of the first TLV of a type. */
  function FirstOf(tlvs: seq<Tlv>, t: int): (r: Option<nat>)
    ensures r.Some? ==> r.value < |tlvs|
  {
    if tlvs == [] then None
    else if tlvs[0].t == t then Some(0)
    else match FirstOf(tlvs[1..], t)
      case None => None
      case Some(k) => Some(k + 1)
  }

  /** The place of the TLV that is asked for: the k-th one for 0x1000 + k, else the first of the type. */
  function Asked(tlvs: seq<Tlv>, tlvType: int): (r: Option<nat>)
    ensures r.Some? ==> r.value < |tlvs|
  {
    if tlvType <= BY_INDEX then FirstOf(tlvs, tlvType)
    else if tlvType - BY_INDEX <= |tlvs| then Some(tlvType - BY_INDEX - 1)
    else None
  }

  /** The value of the first TLV of a type. */
  function ValueOf(tlvs: seq<Tlv>, t: int): Option<seq<byte>> {
    match FirstOf(tlvs, t)
    case None => None
    case Some(k) => Some(tlvs[k].value)
  }

  lemma {:induction false} ValueOfAppend(a: seq<Tlv>, b: seq<Tlv>, t: int)
    ensures ValueOf(a + b, t) == if ValueOf(a, t).Some? then ValueOf(a, t) else ValueOf(b, t)
  {
    if a == [] {
      assert a + b == b;
    } else {
      assert (a + b)[1..] == a[1..] + b;
      ValueOfAppend(a[1..], b, t);
    }
  }

  lemma {:induction false} FirstOfIs(tlvs: seq<Tlv>, t: int, k: nat)
    requires k <= |tlvs| && (forall j | 0 <= j < k :: tlvs[j].t != t) && (k < |tlvs| ==> tlvs[k].t == t)
    ensures FirstOf(tlvs, t) == if k < |tlvs| then Some(k) else None
  {
    if k > 0 {
      FirstOfIs(tlvs[1..], t, k - 1);
    }
  }

  /** How the walk through a message ends: at a TLV, at the end, or at a header that is not inside the message. */
  datatype Walked = At(at: nat) | Missing | Outside

  /** The walk behind `find` TLVs, at `at`: the length that is left is a 16-bit counter. */
  function Walk(msg: seq<byte>, tlvType: int, find: nat, length: nat, at: nat): Walked
    decreases |msg| - at
  {
    if length < 3 then Missing
    else if at + 3 > |msg| then Outside
    else if if tlvType > BY_INDEX then find + 1 + BY_INDEX == tlvType else msg[at] == tlvType then At(at)
    else
      var n := ReadLe16(msg, at + 1) + 3;
      Walk(msg, tlvType, find + 1, (length - n) % WRAP, at + n)
  }

  /** `GetTLV`, on any message. */
  method GetTLV(msg: seq<byte>, tlvType: int) returns (r: Walked)
    requires |msg| >= 4
    ensures r == Walk(msg, tlvType, 0, ReadLe16(msg, 2), 4)
  {
    hide Walk, ReadLe16;
    var tlvFind: nat, length: nat, at: nat := 0, ReadLe16(msg, 2), 4;
    while length >= 3
      invariant Walk(msg, tlvType, tlvFind, length, at) == Walk(msg, tlvType, 0, ReadLe16(msg, 2), 4)
      decreases |msg| - at
    {
      WalkTurn(msg, tlvType, tlvFind, length, at);
      if at + 3 > |msg| {
        return Outside;
      }
      tlvFind := tlvFind + 1;
      if tlvType > BY_INDEX {
        if tlvFind + BY_INDEX == tlvType {
          return At(at);
        }
      } else if msg[at] == tlvType {
        return At(at);
      }
      var n := ReadLe16(msg, at + 1) + 3;
      length, at := (length - n) % WRAP, at + n;
    }
    WalkTurn(msg, tlvType, tlvFind, length, at);
    r := Missing;
  }

  /** One turn of the walk. */
  lemma WalkTurn(msg: seq<byte>, tlvType: int, find: nat, length: nat, at: nat)
    ensures
      var r := Walk(msg, tlvType, find, length, at);
      if length < 3 then r == Missing
      else if at + 3 > |msg| then r == Outside
      else if if tlvType > BY_INDEX then find + 1 + BY_INDEX == tlvType else msg[at] == tlvType then r == At(at)
      else
        var n := ReadLe16(msg, at + 1) + 3;
        r == Walk(msg, tlvType, find + 1, (length - n) % WRAP, at + n)
  {
    hide ReadLe16;
  }

  /** The walk is at TLV `k` of `tlvs`, which are the rest of the message. */
  ghost predicate Walking(msg: seq<byte>, tlvs: seq<Tlv>, k: nat, length: nat, at: nat) {
    && k <= |tlvs| && at + length == |msg| && length < WRAP && msg[at..] == Encode(tlvs[k..])
    && forall x: Tlv | x in tlvs :: |x.value| < WRAP
  }

  /** Where a TLV is in a message. */
  ghost predicate TlvIsAt(msg: seq<byte>, at: nat, x: Tlv) {
    at + |TlvBytes(x)| <= |msg| && msg[at..at + |TlvBytes(x)|] == TlvBytes(x)
  }

  lemma {:induction false} WalkFrom(msg: seq<byte>, tlvType: int, tlvs: seq<Tlv>, k: nat, length: nat, at: nat)
    requires Walking(msg, tlvs, k, length, at)
    requires tlvType > BY_INDEX ==> k < tlvType - BY_INDEX
    requires tlvType <= BY_INDEX ==> forall j | 0 <= j < k :: tlvs[j].t != tlvType
    ensures
      var r := Walk(msg, tlvType, k, length, at);
      match Asked(tlvs, tlvType)
      case None => r == Missing
      case Some(i) => r.At? && TlvIsAt(msg, r.at, tlvs[i])
    decreases |tlvs| - k
  {
    hide Encode, FirstOf, TlvBytes;
    AllConsumed(tlvs, k);
    if k == |tlvs| {
      FirstOfIs(tlvs, tlvType, k);
    } else {
      NextTlv(msg, at, tlvs, k);
      var n := |TlvBytes(tlvs[k])|;
      if tlvType <= BY_INDEX && tlvs[k].t == tlvType {
        FirstOfIs(tlvs, tlvType, k);
      } else if tlvType <= BY_INDEX || k + 1 < tlvType - BY_INDEX {
        DivUnique(length - n, WRAP, 0, length - n);
        WalkFrom(msg, tlvType, tlvs, k + 1, length - n, at + n);
      }
    }
  }

  /** In a message whose TLVs are `tlvs` it ends at the TLV that is asked for, or finds that there is none. */
  lemma WalkFinds(msg: seq<byte>, tlvType: int, tlvs: seq<Tlv>)
    requires |msg| >= 4 && msg[4..] == Encode(tlvs) && msg[2] as int + 0x100 * msg[3] as int == |msg| - 4
    ensures
      var r := Walk(msg, tlvType, 0, msg[2] as int + 0x100 * msg[3] as int, 4);
      match Asked(tlvs, tlvType)
      case None => r == Missing
      case Some(i) => r.At? && TlvIsAt(msg, r.at, tlvs[i])
  {
    ShortValues(tlvs);
    assert tlvs[0..] == tlvs;
    WalkFrom(msg, tlvType, tlvs, 0, ReadLe16(msg, 2), 4);
  }

  // ---------------------------------------------------------------------------------------
  // Messages whose lengths disagree

  /**
   Where the walk stops: the count is below a header, or the next header, all inside, takes it there,
   around zero if need be.
   */
  predicate Stops(count: int, rest: seq<byte>) {
    count % WRAP < 3 || (|rest| >= 3 && (count - (ReadLe16(rest, 1) + 3)) % WRAP < 3)
  }

  ghost predicate SplitsInto(s: seq<byte>, length: int, tlvs: seq<Tlv>, rest: seq<byte>) {
    && s == Encode(tlvs) + rest && Stops(length - |Encode(tlvs)|, rest)
    && forall x: Tlv | x in tlvs :: |x.value| < WRAP
  }

  /** Whole TLVs, behind which a count that started at `length` stops. */
  ghost predicate Splits(s: seq<byte>, length: int) {
    exists tlvs, rest :: SplitsInto(s, length, tlvs, rest)
  }

  lemma SplitsNow(s: seq<byte>, length: int)
    requires Stops(length, s)
    ensures Splits(s, length)
  {
    hide Stops;
    assert s == Encode([]) + s;
    assert SplitsInto(s, length, [], s);
  }

  /** Only the count modulo 2^16 matters. */
  lemma StopsMod(count: int, less: int, rest: seq<byte>)
    ensures Stops(count % WRAP - less, rest) == Stops(count - less, rest)
  {
    hide ReadLe16;
    ModShift(count, -less);
    if |rest| >= 3 {
      ModShift(count, -less - (ReadLe16(rest, 1) + 3));
    }
  }

  lemma ModShift(x: int, y: int)
    ensures (x % WRAP + y) % WRAP == (x + y) % WRAP
  {
    var q, r := DivParts(x, WRAP);
    DivUnique(WRAP * q, WRAP, q, 0);
    ModAdd(WRAP * q, r + y, WRAP);
  }

  lemma SplitsFirst(s: seq<byte>, length: nat)
    requires |s| >= 3 && ReadLe16(s, 1) + 3 <= |s| && 3 <= length < WRAP
    ensures
      var n := ReadLe16(s, 1) + 3;
      Splits(s, length) <==> Splits(s[n..], (length - n) % WRAP)
  {
    hide Encode, Stops;
    var n := ReadLe16(s, 1) + 3;
    if Splits(s[n..], (length - n) % WRAP) {
      var tlvs: seq<Tlv>, rest :| SplitsInto(s[n..], (length - n) % WRAP, tlvs, rest);
      PutFirst(s, length, tlvs, rest);
    }
    if Splits(s, length) {
      var tlvs: seq<Tlv>, rest :| SplitsInto(s, length, tlvs, rest);
      TakeFirst(s, length, tlvs, rest);
    }
  }

  lemma PutFirst(s: seq<byte>, length: int, tlvs: seq<Tlv>, rest: seq<byte>)
    requires |s| >= 3 && ReadLe16(s, 1) + 3 <= |s|
    requires var n := ReadLe16(s, 1) + 3; SplitsInto(s[n..], (length - n) % WRAP, tlvs, rest)
    ensures Splits(s, length)
  {
    hide Low, Stops;
    var n := ReadLe16(s, 1) + 3;
    var x := Tlv(s[0], s[3..n]);
    ReadBack(s[1], s[2]);
    assert TlvBytes(x) == s[..n];
    assert ([x] + tlvs)[1..] == tlvs;
    assert s == TlvBytes(x) + (Encode(tlvs) + rest) == Encode([x] + tlvs) + rest;
    StopsMod(length - n, |Encode(tlvs)|, rest);
    assert SplitsInto(s, length, [x] + tlvs, rest);
  }

  lemma ReadBack(low: byte, high: byte)
    ensures Le16(U16(high, low)) == [low, high]
  {
    var q, r := DivParts(U16(high, low), 256);
    DivUnique(high, 256, 0, high);
  }

  lemma TakeFirst(s: seq<byte>, length: nat, tlvs: seq<Tlv>, rest: seq<byte>)
    requires |s| >= 3 && ReadLe16(s, 1) + 3 <= |s| && 3 <= length < WRAP && SplitsInto(s, length, tlvs, rest)
    ensures var n := ReadLe16(s, 1) + 3; Splits(s[n..], (length - n) % WRAP)
  {
    hide Low;
    var n := ReadLe16(s, 1) + 3;
    if tlvs == [] {
      assert s == rest;
      DivUnique(length, WRAP, 0, length);
      var count := (length - n) % WRAP;
      DivUnique(count, WRAP, 0, count);
      SplitsNow(s[n..], count);
    } else {
      hide Stops;
      var x := tlvs[0];
      FirstTlv(s, tlvs, rest);
      assert n == |TlvBytes(x)|;
      assert s[n..] == Encode(tlvs[1..]) + rest;
      StopsMod(length - n, |Encode(tlvs[1..])|, rest);
      assert SplitsInto(s[n..], (length - n) % WRAP, tlvs[1..], rest);
    }
  }

  lemma FirstTlv(s: seq<byte>, tlvs: seq<Tlv>, rest: seq<byte>)
    requires tlvs != [] && s == Encode(tlvs) + rest && |tlvs[0].value| < WRAP
    ensures |s| >= 3 && ReadLe16(s, 1) + 3 == |TlvBytes(tlvs[0])| <= |s|
    ensures s == TlvBytes(tlvs[0]) + (Encode(tlvs[1..]) + rest)
  {
    Le16RoundTrip(|tlvs[0].value|);
    assert s == TlvBytes(tlvs[0]) + (Encode(tlvs[1..]) + rest);
  }

  /** No whole TLV is left. */
  lemma NoFirst(s: seq<byte>, length: nat)
    requires |s| < 3 || ReadLe16(s, 1) + 3 > |s|
    ensures Splits(s, length) <==> Stops(length, s)
  {
    hide Stops, Low, TlvBytes;
    if Stops(length, s) {
      SplitsNow(s, length);
    }
    if Splits(s, length) {
      var tlvs: seq<Tlv>, rest :| SplitsInto(s, length, tlvs, rest);
      if tlvs == [] {
        assert s == rest;
      } else {
        FirstTlv(s, tlvs, rest);
        assert false;
      }
    }
  }

  const NO_TYPE := -1      // a type that no TLV has

  lemma {:induction false} InsideFrom(msg: seq<byte>, find: nat, length: nat, at: nat)
    requires at <= |msg| && length < WRAP
    ensures Walk(msg, NO_TYPE, find, length, at) != Outside <==> Splits(msg[at..], length)
    decreases |msg| - at
  {
    hide Splits, Walk, ReadLe16, Stops;
    var s := msg[at..];
    WalkOn(msg, find, length, at);
    if length < 3 {
      SplitsNow(s, length);
    } else if |s| < 3 {
      NoFirst(s, length);
    } else {
      HeaderInside(msg, at);
      var n := ReadLe16(msg, at + 1) + 3;
      if n <= |s| {
        SplitsFirst(s, length);
        assert s[n..] == msg[at + n..];
        InsideFrom(msg, find + 1, (length - n) % WRAP, at + n);
      } else {
        NoFirst(s, length);
      }
    }
  }

  lemma HeaderInside(msg: seq<byte>, at: nat)
    requires at + 3 <= |msg|
    ensures ReadLe16(msg[at..], 1) == ReadLe16(msg, at + 1)
  {
  }

  /** The next turn of the walk. */
  lemma WalkOn(msg: seq<byte>, find: nat, length: nat, at: nat)
    requires at <= |msg| && length < WRAP
    ensures
      var r, s := Walk(msg, NO_TYPE, find, length, at), msg[at..];
      if length < 3 then r == Missing && Stops(length, s)
      else if |s| < 3 then r == Outside && !Stops(length, s)
      else
        var n := ReadLe16(msg, at + 1) + 3;
        if n <= |s| then r == Walk(msg, NO_TYPE, find + 1, (length - n) % WRAP, at + n)
        else r != Outside <==> Stops(length, s)
  {
    DivUnique(length, WRAP, 0, length);
    if at + 3 <= |msg| {
      HeaderInside(msg, at);
    }
    hide ReadLe16;
  }

  /**
   Looking up an absent type stays inside a message, whatever lengths it announces, if and only if it
   starts with whole TLVs behind which the count stops. In particular a message whose announced length
   is the true one has to consist of them, but for fewer bytes than a header or a last header that takes
   the count around.
   */
  lemma InsideIff(msg: seq<byte>)
    requires |msg| >= 4
    ensures Walk(msg, NO_TYPE, 0, ReadLe16(msg, 2), 4) != Outside <==> Splits(msg[4..], ReadLe16(msg, 2))
  {
    InsideFrom(msg, 0, ReadLe16(msg, 2), 4);
  }

  /** And then so does looking up any type. */
  lemma {:induction false} InsideAny(msg: seq<byte>, tlvType: int, find: nat, length: nat, at: nat)
    requires Walk(msg, NO_TYPE, find, length, at) != Outside
    ensures Walk(msg, tlvType, find, length, at) != Outside
    decreases |msg| - at
  {
    if length >= 3 && at + 3 <= |msg| {
      var n := ReadLe16(msg, at + 1) + 3;
      InsideAny(msg, tlvType, find + 1, (length - n) % WRAP, at + n);
    }
  }

  lemma AllConsumed(tlvs: seq<Tlv>, k: nat)
    requires k <= |tlvs|
    ensures k == |tlvs| ==> Encode(tlvs[k..]) == []
  {
  }

  lemma NextTlv(msg: seq<byte>, at: nat, tlvs: seq<Tlv>, k: nat)
    requires k < |tlvs| && at <= |msg| && msg[at..] == Encode(tlvs[k..]) && |tlvs[k].value| < WRAP
    ensures
      var n := |TlvBytes(tlvs[k])|;
      && at + n <= |msg| && msg[at..at + n] == TlvBytes(tlvs[k]) && msg[at + n..] == Encode(tlvs[k + 1..])
      && msg[at] == tlvs[k].t && ReadLe16(msg, at + 1) + 3 == n
  {
    var x := tlvs[k];
    var s := msg[at..];
    assert tlvs[k..][1..] == tlvs[k + 1..];
    Le16RoundTrip(|x.value|);
    hide Encode, Low;
    var n := |TlvBytes(x)|;
    assert s == TlvBytes(x) + Encode(tlvs[k + 1..]);
    assert s[..n] == TlvBytes(x) && s[n..] == Encode(tlvs[k + 1..]);
    assert msg[at] == s[0] && msg[at + 1] == s[1] && msg[at + 2] == s[2];
    assert msg[at + n..] == s[n..];
  }

  // ---------------------------------------------------------------------------------------
  // Building requests

  datatype Profile = Profile(
    apn: Option<seq<byte>>,
    user: Option<seq<byte>>,
    password: Option<seq<byte>>,
    auth: nat,
    ipType: nat,
    curIpFamily: nat,
    index: nat)

  /** ctnet@mycdma.cn */
  const CDMA_USER: seq<byte> := [99, 116, 110, 101, 116, 64, 109, 121, 99, 100, 109, 97, 46, 99, 110]

  /** vnet.mobi */
  const CDMA_PASSWORD: seq<byte> := [118, 110, 101, 116, 46, 109, 111, 98, 105]

  predicate Absent(s: Option<seq<byte>>) {
    s == None || s == Some([])
  }

  /** User, password and protocol; a CDMA profile without any gets those of the network. */
  function Credentials(p: Profile, cdma: bool): (Option<seq<byte>>, Option<seq<byte>>, nat) {
    if cdma && Absent(p.user) && Absent(p.password) then (Some(CDMA_USER), Some(CDMA_PASSWORD), 2)
    else (p.user, p.password, p.auth)
  }

  function Optional(t: byte, value: Option<seq<byte>>): seq<Tlv> {
    if value.Some? then [Tlv(t, value.value)] else []
  }

  function Both(a: Option<seq<byte>>, b: Option<seq<byte>>, auth: nat): Option<seq<byte>> {
    if a.Some? && b.Some? then Some([Low(auth)]) else None
  }

  /** The TLVs of a request to start a data call. */
  function StartTlvs(p: Profile, cdma: bool): seq<Tlv> {
    var (user, password, auth) := Credentials(p, cdma);
    [Tlv(0x30, [if cdma then 2 else 1])]
    + Optional(0x14, if cdma then None else p.apn)
    + Optional(0x17, user)
    + Optional(0x18, password)
    + Optional(0x16, Both(user, password, auth))
    + [Tlv(0x19, [Low(p.curIpFamily)])]
    + Optional(0x31, if p.index != 0 && !cdma then Some([Low(p.index)]) else None)
  }

  /** The TLVs of a request to change a stored profile. */
  function ModifyTlvs(p: Profile): seq<Tlv> {
    [Tlv(0x01, [0, Low(p.index)]), Tlv(0x11, [Low(p.ipType)])]
    + Optional(0x14, p.apn)
    + Optional(0x1b, p.user)
    + Optional(0x1c, p.password)
    + Optional(0x1d, Both(p.user, p.password, p.auth))
  }

  /**
   What a request to start a data call says under each type. A CDMA profile has neither APN nor index, and
   without user and password it gets those of the network, with CHAP.
   */
  function StartField(p: Profile, cdma: bool, t: int): Option<seq<byte>> {
    var nameless := (p.user == None || p.user == Some([])) && (p.password == None || p.password == Some([]));
    if t == 0x30 then Some([if cdma then 2 else 1])
    else if t == 0x14 then (if cdma then None else p.apn)
    else if t == 0x17 then (if cdma && nameless then Some(CDMA_USER) else p.user)
    else if t == 0x18 then (if cdma && nameless then Some(CDMA_PASSWORD) else p.password)
    else if t == 0x16 then
      if cdma && nameless then Some([2])
      else if p.user.Some? && p.password.Some? then Some([p.auth % 256]) else None
    else if t == 0x19 then Some([p.curIpFamily % 256])
    else if t == 0x31 then (if p.index != 0 && !cdma then Some([p.index % 256]) else None)
    else None
  }

  function ModifyField(p: Profile, t: int): Option<seq<byte>> {
    if t == 0x01 then Some([0, p.index % 256])
    else if t == 0x11 then Some([p.ipType % 256])
    else if t == 0x14 then p.apn
    else if t == 0x1b then p.user
    else if t == 0x1c then p.password
    else if t == 0x1d then (if p.user.Some? && p.password.Some? then Some([p.auth % 256]) else None)
    else None
  }

  lemma CdmaNames()
    ensures
      var user, password := "ctnet@mycdma.cn", "vnet.mobi";
      && |CDMA_USER| == |user| && (forall k | 0 <= k < |user| :: CDMA_USER[k] == user[k] as int)
      && |CDMA_PASSWORD| == |password| && (forall k | 0 <= k < |password| :: CDMA_PASSWORD[k] == password[k] as int)
  {
  }

  lemma LowIs(n: nat)
    ensures Low(n) == n % 256
  {
  }

  lemma ValueOfOptional(t: byte, value: Option<seq<byte>>, asked: int)
    ensures ValueOf(Optional(t, value), asked) == if asked == t then value else None
  {
  }

  /** Under its type every field of the profile is found again, and nothing under any other type. */
  lemma StartFields(p: Profile, cdma: bool, t: int)
    ensures ValueOf(StartTlvs(p, cdma), t) == StartField(p, cdma, t)
  {
    hide ValueOf, Low;
    var (user, password, auth) := Credentials(p, cdma);
    var a := Optional(0x30, Some([if cdma then 2 else 1]));
    var b := Optional(0x14, if cdma then None else p.apn);
    var c := Optional(0x17, user);
    var d := Optional(0x18, password);
    var e := Optional(0x16, Both(user, password, auth));
    var f := Optional(0x19, Some([Low(p.curIpFamily)]));
    var g := Optional(0x31, if p.index != 0 && !cdma then Some([Low(p.index)]) else None);
    assert StartTlvs(p, cdma) == a + b + c + d + e + f + g;
    SevenFields(a, b, c, d, e, f, g, t);
    ValueOfOptional(0x30, Some([if cdma then 2 else 1]), t);
    ValueOfOptional(0x14, if cdma then None else p.apn, t);
    ValueOfOptional(0x17, user, t);
    ValueOfOptional(0x18, password, t);
    ValueOfOptional(0x16, Both(user, password, auth), t);
    ValueOfOptional(0x19, Some([Low(p.curIpFamily)]), t);
    ValueOfOptional(0x31, if p.index != 0 && !cdma then Some([Low(p.index)]) else None, t);
    LowIs(p.curIpFamily);
    LowIs(p.index);
    LowIs(auth);
    hide Optional, StartTlvs;
  }

  lemma ModifyFields(p: Profile, t: int)
    ensures ValueOf(ModifyTlvs(p), t) == ModifyField(p, t)
  {
    hide ValueOf, Low;
    var a := Optional(0x01, Some([0, Low(p.index)]));
    var b := Optional(0x11, Some([Low(p.ipType)]));
    var c := Optional(0x14, p.apn);
    var d := Optional(0x1b, p.user);
    var e := Optional(0x1c, p.password);
    var f := Optional(0x1d, Both(p.user, p.password, p.auth));
    assert ModifyTlvs(p) == a + b + c + d + e + f + [];
    SevenFields(a, b, c, d, e, f, [], t);
    ValueOfOptional(0x01, Some([0, Low(p.index)]), t);
    ValueOfOptional(0x11, Some([Low(p.ipType)]), t);
    ValueOfOptional(0x14, p.apn, t);
    ValueOfOptional(0x1b, p.user, t);
    ValueOfOptional(0x1c, p.password, t);
    ValueOfOptional(0x1d, Both(p.user, p.password, p.auth), t);
    ValueOfOptional(0, None, t);
    LowIs(p.ipType);
    LowIs(p.index);
    LowIs(p.auth);
    hide Optional, ModifyTlvs;
  }

  /** The first of seven parts with a TLV of the type decides. */
  lemma SevenFields(a: seq<Tlv>, b: seq<Tlv>, c: seq<Tlv>, d: seq<Tlv>, e: seq<Tlv>, f: seq<Tlv>, g: seq<Tlv>, t: int)
    ensures ValueOf(a + b + c + d + e + f + g, t) ==
      if ValueOf(a, t).Some? then ValueOf(a, t)
      else if ValueOf(b, t).Some? then ValueOf(b, t)
      else if ValueOf(c, t).Some? then ValueOf(c, t)
      else if ValueOf(d, t).Some? then ValueOf(d, t)
      else if ValueOf(e, t).Some? then ValueOf(e, t)
      else if ValueOf(f, t).Some? then ValueOf(f, t)
      else ValueOf(g, t)
  {
    hide ValueOf;
    ValueOfAppend(a + b + c + d + e + f, g, t);
    ValueOfAppend(a + b + c + d + e, f, t);
    ValueOfAppend(a + b + c + d, e, t);
    ValueOfAppend(a + b + c, d, t);
    ValueOfAppend(a + b, c, t);
    ValueOfAppend(a, b, t);
  }

  // ---------------------------------------------------------------------------------------
  // The builders

  method PutHeader(buf: array<byte>, at: nat, t: byte, n: nat)
    requires at + 3 <= buf.Length
    modifies buf
    ensures buf[..at + 3] == old(buf[..at]) + [t] + Le16(n) && buf[at + 3..] == old(buf[at + 3..])
  {
    buf[at] := t;
    buf[at + 1] := Low(n);
    buf[at + 2] := Low(n / 256);
  }

  method PutByte(buf: array<byte>, at: nat, t: byte, value: byte) returns (next: nat)
    requires at + 4 <= buf.Length
    modifies buf
    ensures next == at + 4 && buf[..next] == old(buf[..at]) + TlvBytes(Tlv(t, [value]))
  {
    hide Low;
    PutHeader(buf, at, t, 1);
    buf[at + 3] := value;
    next := at + 4;
  }

  /** A string with its terminator, which the next TLV overwrites. */
  method PutString(buf: array<byte>, at: nat, t: byte, value: seq<byte>) returns (next: nat)
    requires at + 3 + |value| < buf.Length
    modifies buf
    ensures next == at + 3 + |value| && buf[..next] == old(buf[..at]) + TlvBytes(Tlv(t, value))
  {
    hide Low;
    PutHeader(buf, at, t, |value|);
    ghost var head := buf[..at + 3];
    var i := 0;
    while i < |value|
      invariant i <= |value| && buf[..at + 3 + i] == head + value[..i]
    {
      buf[at + 3 + i] := value[i];
      assert buf[..at + 3 + (i + 1)] == buf[..at + 3 + i] + [value[i]];
      i := i + 1;
    }
    assert value[..|value|] == value;
    buf[at + 3 + i] := 0;
    next := at + 3 + |value|;
    assert buf[..next] == head + value;
  }

  /** The buffer holds the headers and then some TLVs, up to `at`. */
  ghost predicate Holds(s: seq<byte>, headers: seq<byte>, tlvs: seq<Tlv>, at: nat) {
    at <= |s| && s[..at] == headers + Encode(tlvs)
  }

  lemma HoldsMore(before: seq<byte>, after: seq<byte>, headers: seq<byte>, tlvs: seq<Tlv>, at: nat, next: nat, x: Tlv)
    requires Holds(before, headers, tlvs, at) && next <= |after| && after[..next] == before[..at] + TlvBytes(x)
    ensures Holds(after, headers, tlvs + [x], next)
  {
    hide TlvBytes;
    EncodeSnoc(tlvs, x);
    assert headers + Encode(tlvs) + TlvBytes(x) == headers + (Encode(tlvs) + TlvBytes(x));
  }

  /** A TLV with a string or a single byte, if there is a value for it. */
  method PutOptional(buf: array<byte>, at: nat, t: byte, text: bool, value: Option<seq<byte>>,
                     ghost headers: seq<byte>, ghost tlvs: seq<Tlv>)
    returns (next: nat)
    requires !text && value.Some? ==> |value.value| == 1
    requires Holds(buf[..], headers, tlvs, at) && at + |Encode(Optional(t, value))| < buf.Length
    modifies buf
    ensures next == at + |Encode(Optional(t, value))| && Holds(buf[..], headers, tlvs + Optional(t, value), next)
  {
    hide Holds, TlvBytes;
    next := at;
    OptionalBytes(t, value);
    if value.Some? {
      ghost var before := buf[..];
      if text {
        next := PutString(buf, at, t, value.value);
      } else {
        assert value.value == [value.value[0]];
        next := PutByte(buf, at, t, value.value[0]);
      }
      HoldsMore(before, buf[..], headers, tlvs, at, next, Tlv(t, value.value));
    } else {
      assert tlvs + [] == tlvs;
    }
  }

  lemma OptionalBytes(t: byte, value: Option<seq<byte>>)
    ensures Encode(Optional(t, value)) == if value.Some? then TlvBytes(Tlv(t, value.value)) else []
  {
    if value.Some? {
      assert Optional(t, value)[1..] == [];
    }
  }

  lemma {:induction false} EncodeAppend(a: seq<Tlv>, b: seq<Tlv>)
    ensures Encode(a + b) == Encode(a) + Encode(b)
  {
    hide TlvBytes;
    if a == [] {
      assert a + b == b;
    } else {
      assert (a + b)[1..] == a[1..] + b;
      EncodeAppend(a[1..], b);
    }
  }

  lemma SevenLengths(a: seq<Tlv>, b: seq<Tlv>, c: seq<Tlv>, d: seq<Tlv>, e: seq<Tlv>, f: seq<Tlv>, g: seq<Tlv>)
    ensures |Encode(a + b + c + d + e + f + g)| ==
      |Encode(a)| + |Encode(b)| + |Encode(c)| + |Encode(d)| + |Encode(e)| + |Encode(f)| + |Encode(g)|
  {
    hide Encode;
    EncodeAppend(a + b + c + d + e + f, g);
    EncodeAppend(a + b + c + d + e, f);
    EncodeAppend(a + b + c + d, e);
    EncodeAppend(a + b + c, d);
    EncodeAppend(a + b, c);
    EncodeAppend(a, b);
  }

  lemma HoldsNone(s: seq<byte>, at: nat)
    requires at <= |s|
    ensures Holds(s, s[..at], [], at)
  {
  }

  /** `WdsStartNwInterfaceReq`: the size of the message with its own header. */
  method WdsStartNwInterfaceReq(buf: array<byte>, p: Profile, cdma: bool) returns (size: nat)
    requires buf.Length == BUFFER_SIZE && HEADERS + |Encode(StartTlvs(p, cdma))| < BUFFER_SIZE
    modifies buf
    ensures size == 4 + |Encode(StartTlvs(p, cdma))|
    ensures buf[..HEADERS - 4 + size] == old(buf[..11]) + [0, 0] + Encode(StartTlvs(p, cdma))
  {
    hide Encode, Optional, Low, Holds, TlvBytes;
    var (user, password, auth) := Credentials(p, cdma);
    var apn := if cdma then None else p.apn;
    var authPreference := Both(user, password, auth);
    var family := Some([Low(p.curIpFamily)]);
    var index := if p.index != 0 && !cdma then Some([Low(p.index)]) else None;
    var technology := Some([if cdma then 2 else 1]);
    ghost var a, b, c := Optional(0x30, technology), Optional(0x14, apn), Optional(0x17, user);
    ghost var d, e := Optional(0x18, password), Optional(0x16, authPreference);
    ghost var f, g := Optional(0x19, family), Optional(0x31, index);
    StartParts(p, cdma, a, b, c, d, e, f, g);
    SevenLengths(a, b, c, d, e, f, g);
    hide StartTlvs, Credentials, Absent;

    buf[11], buf[12] := 0, 0;
    ghost var headers := buf[..HEADERS];
    HoldsNone(buf[..], HEADERS);
    assert buf[..][..HEADERS] == headers;
    assert [] + a == a;
    var at := PutOptional(buf, HEADERS, 0x30, false, technology, headers, []);
    at := PutOptional(buf, at, 0x14, true, apn, headers, a);
    at := PutOptional(buf, at, 0x17, true, user, headers, a + b);
    at := PutOptional(buf, at, 0x18, true, password, headers, a + b + c);
    at := PutOptional(buf, at, 0x16, false, authPreference, headers, a + b + c + d);
    at := PutOptional(buf, at, 0x19, false, family, headers, a + b + c + d + e);
    at := PutOptional(buf, at, 0x31, false, index, headers, a + b + c + d + e + f);
    size := 4 + (at - HEADERS);
    HoldsAll(buf[..], headers, StartTlvs(p, cdma), at);
  }

  lemma StartParts(p: Profile, cdma: bool, a: seq<Tlv>, b: seq<Tlv>, c: seq<Tlv>, d: seq<Tlv>, e: seq<Tlv>,
                   f: seq<Tlv>, g: seq<Tlv>)
    requires
      var (user, password, auth) := Credentials(p, cdma);
      && a == Optional(0x30, Some([if cdma then 2 else 1])) && b == Optional(0x14, if cdma then None else p.apn)
      && c == Optional(0x17, user) && d == Optional(0x18, password) && e == Optional(0x16, Both(user, password, auth))
      && f == Optional(0x19, Some([Low(p.curIpFamily)]))
      && g == Optional(0x31, if p.index != 0 && !cdma then Some([Low(p.index)]) else None)
    ensures StartTlvs(p, cdma) == a + b + c + d + e + f + g
  {
  }

  lemma HoldsAll(s: seq<byte>, headers: seq<byte>, tlvs: seq<Tlv>, at: nat)
    requires Holds(s, headers, tlvs, at)
    ensures at <= |s| && s[..at] == headers + Encode(tlvs)
  {
  }

  /** `WdsModifyProfileSettingsReq`. */
  method WdsModifyProfileSettingsReq(buf: array<byte>, p: Profile) returns (size: nat)
    requires buf.Length == BUFFER_SIZE && HEADERS + |Encode(ModifyTlvs(p))| < BUFFER_SIZE
    modifies buf
    ensures size == 4 + |Encode(ModifyTlvs(p))|
    ensures buf[..HEADERS - 4 + size] == old(buf[..11]) + [5, 0] + Encode(ModifyTlvs(p))
  {
    hide Encode, Optional, Low, Holds, TlvBytes;
    var profileIndex, pdpType := Tlv(0x01, [0, Low(p.index)]), Some([Low(p.ipType)]);
    var authPreference := Both(p.user, p.password, p.auth);
    ghost var a, b, c := [profileIndex], Optional(0x11, pdpType), Optional(0x14, p.apn);
    ghost var d, e, f := Optional(0x1b, p.user), Optional(0x1c, p.password), Optional(0x1d, authPreference);
    ModifyParts(p, a, b, c, d, e, f);
    SevenLengths(a, b, c, d, e, f, []);
    EncodeOne(profileIndex);
    hide ModifyTlvs;

    buf[11], buf[12] := 5, 0;
    ghost var headers := buf[..HEADERS];
    HoldsNone(buf[..], HEADERS);
    assert buf[..][..HEADERS] == headers;
    ghost var before := buf[..];
    PutHeader(buf, HEADERS, 0x01, 2);
    buf[HEADERS + 3], buf[HEADERS + 4] := 0, Low(p.index);
    var at := HEADERS + 5;
    OneTlv(buf[..], before, profileIndex);
    HoldsMore(before, buf[..], headers, [], HEADERS, at, profileIndex);
    assert [] + a == a;
    at := PutOptional(buf, at, 0x11, false, pdpType, headers, a);
    at := PutOptional(buf, at, 0x14, true, p.apn, headers, a + b);
    at := PutOptional(buf, at, 0x1b, true, p.user, headers, a + b + c);
    at := PutOptional(buf, at, 0x1c, true, p.password, headers, a + b + c + d);
    at := PutOptional(buf, at, 0x1d, false, authPreference, headers, a + b + c + d + e);
    size := 9 + (at - (HEADERS + 5));
    HoldsAll(buf[..], headers, ModifyTlvs(p), at);
  }

  lemma OneTlv(after: seq<byte>, before: seq<byte>, x: Tlv)
    requires |before| == |after| == BUFFER_SIZE && |x.value| == 2
    requires after[..HEADERS + 3] == before[..HEADERS] + [x.t] + Le16(2) && after[HEADERS + 3] == x.value[0]
        && after[HEADERS + 4] == x.value[1]
    ensures after[..HEADERS + 5] == before[..HEADERS] + TlvBytes(x)
  {
    hide Low;
    assert x.value == [x.value[0], x.value[1]];
    assert after[..HEADERS + 5] == after[..HEADERS + 3] + x.value;
  }

  lemma EncodeOne(x: Tlv)
    ensures Encode([x]) == TlvBytes(x)
  {
    assert [x][1..] == [];
  }

  lemma ModifyParts(p: Profile, a: seq<Tlv>, b: seq<Tlv>, c: seq<Tlv>, d: seq<Tlv>, e: seq<Tlv>, f: seq<Tlv>)
    requires a == [Tlv(0x01, [0, Low(p.index)])] && b == Optional(0x11, Some([Low(p.ipType)]))
        && c == Optional(0x14, p.apn)
    requires d == Optional(0x1b, p.user) && e == Optional(0x1c, p.password)
        && f == Optional(0x1d, Both(p.user, p.password, p.auth))
    ensures ModifyTlvs(p) == a + b + c + d + e + f == a + b + c + d + e + f + [] && Encode([]) == []
  {
  }

  datatype Body = NoBody | StartBody | ModifyBody

  function BodyTlvs(body: Body, p: Profile, cdma: bool): seq<Tlv> {
    match body
    case NoBody => []
    case StartBody => StartTlvs(p, cdma)
    case ModifyBody => ModifyTlvs(p)
  }

  /** The fields that each request has. */
  lemma BodyFields(body: Body, p: Profile, cdma: bool, t: int)
    ensures
      ValueOf(BodyTlvs(body, p, cdma), t) ==
        match body
        case NoBody => None
        case StartBody => StartField(p, cdma, t)
        case ModifyBody => ModifyField(p, t)
  {
    hide StartTlvs, ModifyTlvs, StartField, ModifyField;
    StartFields(p, cdma, t);
    ModifyFields(p, t);
  }

  /** A request as it is sent: the length fields of the three headers and what follows them. */
  ghost predicate IsRequest(request: seq<byte>, qmiType: byte, msgType: nat, tid: nat, tlvs: seq<Tlv>) {
    && |request| == HEADERS + |Encode(tlvs)|
    && request[1] as int + 0x100 * request[2] as int + 1 == |request|
    && request[11] as int + 0x100 * request[12] as int + HEADERS == |request|
    && request[HEADERS..] == Encode(tlvs)
    && Fixed(request, qmiType, msgType, tid)
  }

  /** The header bytes other than the lengths. */
  ghost predicate Fixed(s: seq<byte>, qmiType: byte, msgType: nat, tid: nat) {
    && |s| >= 11 && s[0] == 1 && s[3] == 0 && s[4] == qmiType && s[5] == 0 && s[6] == 0
    && s[7] as int + 0x100 * s[8] as int == tid % WRAP && s[9] as int + 0x100 * s[10] as int == msgType % WRAP
  }

  method PutFixed(buf: array<byte>, qmiType: byte, msgType: nat, tid: nat)
    requires buf.Length == BUFFER_SIZE
    modifies buf
    ensures Fixed(buf[..], qmiType, msgType, tid)
  {
    LowHigh(tid);
    LowHigh(msgType);
    hide Low;
    buf[0] := 1;
    buf[3], buf[4], buf[5], buf[6] := 0, qmiType, 0, 0;
    buf[7], buf[8] := Low(tid), Low(tid / 256);
    buf[9], buf[10] := Low(msgType), Low(msgType / 256);
  }

  lemma FixedKept(s: seq<byte>, next: seq<byte>, qmiType: byte, msgType: nat, tid: nat)
    requires Fixed(s, qmiType, msgType, tid) && |next| >= 11
    requires next[0] == s[0] && next[3..11] == s[3..11]
    ensures Fixed(next, qmiType, msgType, tid)
  {
    hide Low;
    assert forall k | 0 <= k < 8 :: next[3 + k] == next[3..11][k] && s[3 + k] == s[3..11][k];
    assert forall k | 3 <= k < 11 :: next[k] == next[3..11][k - 3] && s[k] == s[3..11][k - 3];
  }

  lemma LengthsRight(request: seq<byte>, n: nat)
    requires n < BUFFER_SIZE && |request| == HEADERS + n
    requires request[1] == Low(n + 12) && request[2] == Low((n + 12) / 256) && request[11] == Low(n)
        && request[12] == Low(n / 256)
    ensures request[1] as int + 0x100 * request[2] as int + 1 == |request|
    ensures request[11] as int + 0x100 * request[12] as int + HEADERS == |request|
  {
    hide Low;
    Le16RoundTrip(n);
    Le16RoundTrip(n + 12);
  }

  /** The message part of a request, behind its header. */
  method FillBody(buf: array<byte>, body: Body, p: Profile, cdma: bool) returns (length: nat)
    requires buf.Length == BUFFER_SIZE && HEADERS + |Encode(BodyTlvs(body, p, cdma))| < BUFFER_SIZE
    modifies buf
    ensures length == |Encode(BodyTlvs(body, p, cdma))| && buf[..11] == old(buf[..11])
    ensures HEADERS + length <= BUFFER_SIZE && buf[HEADERS..HEADERS + length] == Encode(BodyTlvs(body, p, cdma))
  {
    hide Encode, StartTlvs, ModifyTlvs;
    NoTlvs();
    length := 0;
    match body {
      case NoBody =>
      case StartBody =>
        var size := WdsStartNwInterfaceReq(buf, p, cdma);
        length := size - 4;
      case ModifyBody =>
        var size := WdsModifyProfileSettingsReq(buf, p);
        length := size - 4;
    }
  }

  /** `ComposeQMUXMsg`. */
  method ComposeQMUXMsg(qmiType: byte, msgType: nat, tid: nat, body: Body, p: Profile, cdma: bool)
    returns (request: array<byte>)
    requires HEADERS + |Encode(BodyTlvs(body, p, cdma))| < BUFFER_SIZE
    ensures fresh(request) && IsRequest(request[..], qmiType, msgType, tid, BodyTlvs(body, p, cdma))
  {
    hide Encode, BodyTlvs, Low, Fixed;
    ghost var tlvs := BodyTlvs(body, p, cdma);
    var buf := new byte[BUFFER_SIZE](_ => 0);
    PutFixed(buf, qmiType, msgType, tid);
    ghost var head := buf[..];
    var length := FillBody(buf, body, p, cdma);
    assert buf[..11][0] == head[..11][0] && buf[..11][3..11] == head[..11][3..11];
    assert buf[0] == head[0] && buf[3..11] == head[3..11];
    buf[11], buf[12] := Low(length), Low(length / 256);
    var total := length + 4 + 3 + 6;
    buf[1], buf[2] := Low(total - 1), Low((total - 1) / 256);
    assert buf[0] == head[0] && buf[3..11] == head[3..11];
    request := new byte[total](i requires 0 <= i < total reads buf => buf[i]);
    assert request[..] == buf[..total];
    assert request[3..11] == buf[3..11] && request[..][3..11] == request[3..11];
    assert request[..][HEADERS..] == buf[HEADERS..HEADERS + length];
    FixedKept(head, request[..], qmiType, msgType, tid);
    LengthsRight(request[..], length);
  }

  lemma NoTlvs()
    ensures Encode([]) == []
  {
  }

  /** What a request says under a type is what the profile says, read back with `GetTLV`. */
  method AskStartRequest(tid: nat, p: Profile, cdma: bool, t: nat) returns (value: Option<seq<byte>>)
    requires HEADERS + |Encode(StartTlvs(p, cdma))| < BUFFER_SIZE && t <= BY_INDEX
    ensures value == StartField(p, cdma, t)
  {
    hide Encode, StartTlvs, StartField;
    var request := ComposeQMUXMsg(1, 0x20, tid, StartBody, p, cdma);
    ghost var tlvs := StartTlvs(p, cdma);
    var msg := request[9..];
    assert msg[4..] == Encode(tlvs);
    ShortValues(tlvs);
    StartFields(p, cdma, t);
    WalkFinds(msg, t, tlvs);
    var found := GetTLV(msg, t);
    if !found.At? {
      return None;
    }
    ReadValue(msg, found.at, tlvs[FirstOf(tlvs, t).value]);
    value := Some(msg[found.at + 3..found.at + 3 + ReadLe16(msg, found.at + 1)]);
  }

  /** The value of a TLV, read back from the message. */
  lemma ReadValue(msg: seq<byte>, at: nat, x: Tlv)
    requires TlvIsAt(msg, at, x) && |x.value| < WRAP
    ensures at + 3 <= |msg| && at + 3 + ReadLe16(msg, at + 1) <= |msg|
    ensures msg[at + 3..at + 3 + ReadLe16(msg, at + 1)] == x.value
  {
    var bytes := msg[at..at + |TlvBytes(x)|];
    Le16RoundTrip(|x.value|);
    assert bytes[1] == msg[at + 1] && bytes[2] == msg[at + 2] && bytes[3..] == x.value;
  }

  lemma {:induction false} ShortValues(tlvs: seq<Tlv>)
    ensures forall x | x in tlvs :: |x.value| <= |Encode(tlvs)|
  {
    if tlvs != [] {
      ShortValues(tlvs[1..]);
    }
  }
}
