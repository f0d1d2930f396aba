/**
 TCP segments on the wire: the frame send_segment builds and the parser that
 reads it back, with both Internet checksums (RFC 1071, section 3.1 of
 RFC 9293).
 */
module TcpWire {
  import opened Machine

  // ---- The Internet checksum ----

  // The sum of the big-endian 16-bit words; an odd last byte is a high byte.
  ghost function WordSum(s: seq<u8>): nat {
    if s == [] then 0
    else if |s| == 1 then s[0] * 0x100
    else s[0] * 0x100 + s[1] + WordSum(s[2..])
  }

  function Fold(sum: nat): nat {
    if sum < 0x1_0000 then sum else Fold(sum % 0x1_0000 + sum / 0x1_0000)
  }

  lemma {:induction false} SameResidue(n: nat, k: nat)
    ensures (n + 0xffff * k) % 0xffff == n % 0xffff
  {
    QuotientUnique(n + 0xffff * k, n / 0xffff + k, n % 0xffff, 0xffff);
  }

  // Folding is reduction modulo 65535, with 65535 in place of zero.
  lemma {:induction false} FoldIsResidue(sum: nat)
    ensures Fold(sum) == if sum == 0 then 0 else if sum % 0xffff == 0 then 0xffff else sum % 0xffff
  {
    if sum >= 0x1_0000 {
      var next := sum % 0x1_0000 + sum / 0x1_0000;
      FoldIsResidue(next);
      SameResidue(next, sum / 0x1_0000);
    }
  }

  lemma {:induction false} WordSumConcat(a: seq<u8>, b: seq<u8>)
    requires |a| % 2 == 0
    ensures WordSum(a + b) == WordSum(a) + WordSum(b)
  {
    if a == [] {
      assert a + b == b;
    } else {
      assert (a + b)[2..] == a[2..] + b;
      WordSumConcat(a[2..], b);
    }
  }

  // No sum over a frame reaches 32 bits.
  lemma {:induction false} WordSumBound(s: seq<u8>)
    ensures 2 * WordSum(s) <= 0xffff * (|s| + 1)
  {
    if |s| > 1 {
      WordSumBound(s[2..]);
    }
  }

  // checksum_add: the running sum grows by the words.
  method ChecksumAdd(start: u32, bytes: seq<u8>) returns (sum: u32)
    requires start + WordSum(bytes) < 0x1_0000_0000
    ensures sum == start + WordSum(bytes)
  {
    sum := start;
    var rest := bytes;
    while |rest| >= 2
      invariant sum + WordSum(rest) == start + WordSum(bytes)
    {
      sum := (sum + ((rest[0] as int) * 0x100 + rest[1])) % 0x1_0000_0000;
      rest := rest[2..];
    }
    if |rest| != 0 {
      sum := (sum + (rest[0] as int) * 0x100) % 0x1_0000_0000;
    }
  }

  method ChecksumFinish(start: nat) returns (c: u16)
    ensures c == 0xffff - Fold(start)
  {
    FoldIsResidue(start);
    var sum := start;
    while sum >= 0x1_0000
      invariant Fold(sum) == Fold(start)
    {
      sum := sum % 0x1_0000 + sum / 0x1_0000;
    }
    c := 0xffff - sum;
  }

  ghost function Checksum(s: seq<u8>): u16 {
    FoldIsResidue(WordSum(s));
    0xffff - Fold(WordSum(s))
  }

  // The bytes that the TCP checksum covers in front of the segment.
  function Pseudo(source: seq<u8>, destination: seq<u8>, size: u16): seq<u8> {
    source + destination + [0, 6, size / 0x100, size % 0x100]
  }

  method TcpChecksum(source: seq<u8>, destination: seq<u8>, segment: seq<u8>) returns (c: u16)
    requires |source| == |destination| == 4 && |segment| < 0x1_0000
    ensures c == Checksum(Pseudo(source, destination, |segment|) + segment)
  {
    WordSumConcat(source, destination);
    WordSumConcat(source + destination, [0, 6, |segment| / 0x100, |segment| % 0x100]);
    WordSumConcat(Pseudo(source, destination, |segment|), segment);
    WordSumBound(Pseudo(source, destination, |segment|) + segment);
    var sum := ChecksumAdd(0, source);
    sum := ChecksumAdd(sum, destination);
    sum := ChecksumAdd(sum, [0, 6, |segment| / 0x100, |segment| % 0x100]);
    sum := ChecksumAdd(sum, segment);
    c := ChecksumFinish(sum);
  }

  function Big16(v: u16): (s: seq<u8>)
    ensures |s| == 2
  {
    [v / 0x100, v % 0x100]
  }

  // A checksum written over a zero field at an even offset makes the whole
  // sum to zero, whatever the length.
  lemma {:induction false} ChecksumVerifies(a: seq<u8>, b: seq<u8>)
    requires |a| % 2 == 0
    ensures Checksum(a + ([0, 0] + b)) < 0x1_0000 && Checksum(a + (Big16(Checksum(a + ([0, 0] + b))) + b)) == 0
  {
    var c := Checksum(a + ([0, 0] + b));
    WordSumConcat(a, [0, 0] + b);
    WordSumConcat([0, 0], b);
    WordSumConcat(a, Big16(c) + b);
    WordSumConcat(Big16(c), b);
    assert [0, 0][2..] == [] && Big16(c)[2..] == [];
    assert WordSum([0, 0]) == 0 && WordSum(Big16(c)) == c;
    ComplementCancels(WordSum(a) + WordSum(b));
  }

  lemma {:induction false} ComplementCancels(sum: nat)
    ensures Fold(sum) <= 0xffff && Fold(sum + (0xffff - Fold(sum))) == 0xffff
  {
    FoldIsResidue(sum);
    FoldIsResidue(sum + (0xffff - Fold(sum)));
    var q := sum / 0xffff;
    assert sum == q * 0xffff + sum % 0xffff;
  }

  // ---- TCP options ----

  datatype Options = Options(maximum: Option<u16>, scale: Option<u8>)

  // One option, kind and length included; None refuses the segment.
  function OneOption(option: seq<u8>, seen: Options): Option<Options>
    requires 2 <= |option|
  {
    var kind, size := option[0], |option|;
    if kind == 2 then
      if size != 4 || seen.maximum.Some? || (option[2] == 0 && option[3] == 0) then None
      else Some(seen.(maximum := Some((option[2] as int) * 0x100 + option[3])))
    else if kind == 3 then
      if size != 3 || seen.scale.Some? then None else Some(seen.(scale := Some(Min(option[2], 14))))
    else if kind == 4 then if size != 2 then None else Some(seen)
    else if kind == 5 then if size < 10 || (size - 2) % 8 != 0 then None else Some(seen)
    else if kind == 8 then if size != 10 then None else Some(seen)
    else Some(seen)
  }

  // parse_tcp_options, one option at a time.
  function OptionsFrom(bytes: seq<u8>, seen: Options): Option<Options>
    decreases |bytes|
  {
    if bytes == [] || bytes[0] == 0 then Some(seen)
    else if bytes[0] == 1 then OptionsFrom(bytes[1..], seen)
    else if |bytes| < 2 || bytes[1] < 2 || bytes[1] > |bytes| then None
    else
      var next := OneOption(bytes[..bytes[1]], seen);
      if next.None? then None else OptionsFrom(bytes[bytes[1]..], next.value)
  }

  method ParseOptions(bytes: seq<u8>) returns (options: Option<Options>)
    ensures options == OptionsFrom(bytes, Options(None, None))
  {
    var rest: seq<u8>, seen := bytes, Options(None, None);
    while rest != []
      invariant OptionsFrom(rest, seen) == OptionsFrom(bytes, Options(None, None))
      decreases |rest|
    {
      if rest[0] == 0 {
        break;
      }
      if rest[0] == 1 {
        rest := rest[1..];
        continue;
      }
      if |rest| < 2 || rest[1] < 2 || rest[1] > |rest| {
        return None;
      }
      var next := OneOption(rest[..rest[1]], seen);
      if next.None? {
        return None;
      }
      seen, rest := next.value, rest[rest[1]..];
    }
    return Some(seen);
  }

  // What a SYN offers: 1460 bytes, and a window scale of zero if negotiated.
  function SynOptions(scaled: bool): seq<u8> {
    if scaled then [2, 4, 5, 0xb4, 1, 3, 3, 0] else [2, 4, 5, 0xb4]
  }

  lemma {:induction false} SynOptionsParse(scaled: bool)
    ensures OptionsFrom(SynOptions(scaled), Options(None, None))
            == Some(Options(Some(1460), if scaled then Some(0) else None))
  {
    var all, none, some := SynOptions(scaled), Options(None, None), Options(Some(1460), None);
    assert all[..4] == [2, 4, 5, 0xb4];
    assert OneOption(all[..4], none) == Some(some);
    if scaled {
      var rest := all[4..];
      assert rest == [1, 3, 3, 0] && rest[1..] == [3, 3, 0];
      assert rest[1..][..3] == [3, 3, 0] && rest[1..][3..] == [];
      assert OptionsFrom([3, 3, 0], some) == Some(Options(Some(1460), Some(0)));
    } else {
      assert all[4..] == [];
    }
  }

  // ---- Frames ----

  const BUFFER := 1536
  const FLAG_SYN := 2
  const FLAG_RST := 4

  // What send_segment sends: addresses, ports and numbers of a connection, and
  // what it takes to fill in the rest.
  datatype Sending = Sending(remoteMac: seq<u8>, localMac: seq<u8>, source: seq<u8>, destination: seq<u8>,
                             sourcePort: u16, destinationPort: u16, sequence: u32, acknowledgement: u32,
                             flags: u8, free: u16, scaled: bool, identification: u16, payload: seq<u8>)

  predicate Addressed(x: Sending) {
    |x.remoteMac| == |x.localMac| == 6 && |x.source| == |x.destination| == 4
  }

  predicate HasFlag(flags: u8, flag: nat)
    requires 0 < flag
  {
    (flags as int) / flag % 2 == 1
  }

  function SentOptions(x: Sending): (o: seq<u8>)
    ensures |o| == 0 || |o| == 4 || |o| == 8
  {
    if HasFlag(x.flags, FLAG_SYN) then SynOptions(x.scaled) else []
  }

  function SentWindow(x: Sending): u16 {
    if HasFlag(x.flags, FLAG_RST) then 0 else x.free
  }

  predicate Fits(x: Sending) {
    14 + 20 + 20 + |SentOptions(x)| + |x.payload| <= BUFFER
  }

  function Big32(v: u32): (s: seq<u8>)
    ensures |s| == 4
  {
    [v / 0x100_0000, v / 0x1_0000 % 0x100, v / 0x100 % 0x100, v % 0x100]
  }

  function Read16(s: seq<u8>, at: nat): u16
    requires at + 2 <= |s|
  {
    (s[at] as int) * 0x100 + s[at + 1]
  }

  function Read32(s: seq<u8>, at: nat): u32
    requires at + 4 <= |s|
  {
    (s[at] as int) * 0x100_0000 + (s[at + 1] as int) * 0x1_0000 + (s[at + 2] as int) * 0x100 + s[at + 3]
  }

  function EthernetHeader(destination: seq<u8>, source: seq<u8>): seq<u8> {
    destination + source + [8, 0]
  }

  // The ten bytes before the IP checksum and the eight behind it.
  function IpFront(total: u16, identification: u16): (s: seq<u8>)
    ensures |s| == 10
  {
    [0x45, 0, total / 0x100, total % 0x100, identification / 0x100, identification % 0x100, 0, 0, 64, 6]
  }

  // The sixteen bytes before the TCP checksum.
  function TcpFront(x: Sending, words: nat): (s: seq<u8>)
    requires words < 16
    ensures |s| == 16
  {
    Big16(x.sourcePort) + Big16(x.destinationPort) + Big32(x.sequence) + Big32(x.acknowledgement)
    + [words * 16, x.flags] + Big16(SentWindow(x))
  }

  // What follows the TCP checksum: no urgent data, options, payload.
  function TcpBack(x: Sending): seq<u8> {
    [0, 0] + SentOptions(x) + x.payload
  }

  function HeaderWords(x: Sending): (n: nat)
    ensures 5 <= n <= 7 && 4 * n == 20 + |SentOptions(x)|
  {
    (20 + |SentOptions(x)|) / 4
  }

  // send_segment: the whole frame, both checksums filled in; None when the
  // payload does not fit.
  method BuildFrame(x: Sending) returns (frame: Option<seq<u8>>)
    requires Addressed(x)
    ensures frame.None? <==> !Fits(x)
    ensures frame.Some? ==> frame.value == Frame(x)
  {
    var options := SentOptions(x);
    var headerSize := 20 + |options|;
    if |x.payload| > BUFFER - (14 + 20 + headerSize) {
      return None;
    }
    var total := 20 + headerSize + |x.payload|;
    WordSumBound(IpFront(total, x.identification) + ([0, 0] + (x.source + x.destination)));
    var ipSum := ChecksumAdd(0, IpFront(total, x.identification) + ([0, 0] + (x.source + x.destination)));
    var ipChecksum := ChecksumFinish(ipSum);
    var blank := TcpFront(x, headerSize / 4) + ([0, 0] + TcpBack(x));
    var tcpChecksum := TcpChecksum(x.source, x.destination, blank);
    return Some(EthernetHeader(x.remoteMac, x.localMac)
                + (IpFront(total, x.identification) + (Big16(ipChecksum) + (x.source + x.destination)))
                + (TcpFront(x, headerSize / 4) + (Big16(tcpChecksum) + TcpBack(x))));
  }

  ghost function Total(x: Sending): nat {
    20 + 4 * HeaderWords(x) + |x.payload|
  }

  ghost function IpBytes(x: Sending): seq<u8>
    requires Fits(x)
  {
    var back := x.source + x.destination;
    IpFront(Total(x), x.identification) + (Big16(Checksum(IpFront(Total(x), x.identification) + ([0, 0] + back)))
                                           + back)
  }

  ghost function TcpBytes(x: Sending): seq<u8>
    requires Addressed(x) && Fits(x)
  {
    var front := TcpFront(x, HeaderWords(x));
    var pseudo := Pseudo(x.source, x.destination, Total(x) - 20);
    front + (Big16(Checksum(pseudo + (front + ([0, 0] + TcpBack(x))))) + TcpBack(x))
  }

  ghost function Frame(x: Sending): seq<u8>
    requires Addressed(x) && Fits(x)
  {
    EthernetHeader(x.remoteMac, x.localMac) + IpBytes(x) + TcpBytes(x)
  }

  // ---- Parsing ----

  datatype View = View(sourceMac: seq<u8>, source: seq<u8>, sourcePort: u16, destinationPort: u16, sequence: u32,
                       acknowledgement: u32,
                       flags: u8, window: u16, options: Options, payload: seq<u8>)

  // The IP packet of a frame, if it carries TCP to this host.
  ghost function IpPart(frame: seq<u8>, local: seq<u8>): Option<(seq<u8>, seq<u8>)> {
    if |frame| < 54 then None
    else
      var ip := frame[14..];
      var header, total := (ip[0] as int) % 16 * 4, Read16(ip, 2);
      if Read16(frame, 12) != 0x0800 || (ip[0] as int) / 16 != 4 || header < 20 || header > |ip|
         || total < header + 20 || total > |ip|
         || ip[9] != 6 || Read16(ip, 6) % 0x4000 != 0 || ip[16..20] != local || Checksum(ip[..header]) != 0
      then None
      else Some((ip[12..16], ip[header..total]))
  }

  ghost function TcpPart(mac: seq<u8>, source: seq<u8>, local: seq<u8>, tcp: seq<u8>): Option<View>
    requires 20 <= |tcp| < 0x1_0000
  {
    var header := (tcp[12] as int) / 16 * 4;
    if header < 20 || header > |tcp| || Checksum(Pseudo(source, local, |tcp|) + tcp) != 0 then None
    else
      var options := OptionsFrom(tcp[20..header], Options(None, None));
      if options.None? then None
      else Some(View(mac, source, Read16(tcp, 0), Read16(tcp, 2), Read32(tcp, 4), Read32(tcp, 8), tcp[13],
                     Read16(tcp, 14), options.value, tcp[header..]))
  }

  ghost function Parsed(frame: seq<u8>, local: seq<u8>): Option<View> {
    var packet := IpPart(frame, local);
    if packet.None? then None else TcpPart(frame[6..12], packet.value.0, local, packet.value.1)
  }

  method ParseTcp(frame: seq<u8>, local: seq<u8>) returns (view: Option<View>)
    requires |local| == 4
    ensures view == Parsed(frame, local)
  {
    if |frame| < 54 {
      return None;
    }
    var ip := frame[14..];
    var header, total := (ip[0] as int) % 16 * 4, Read16(ip, 2);
    if Read16(frame, 12) != 0x0800 || (ip[0] as int) / 16 != 4 || header < 20 || header > |ip| || total < header + 20
       || total > |ip|
       || ip[9] != 6 || Read16(ip, 6) % 0x4000 != 0 || ip[16..20] != local {
      return None;
    }
    WordSumBound(ip[..header]);
    var ipSum := ChecksumAdd(0, ip[..header]);
    var ipChecksum := ChecksumFinish(ipSum);
    if ipChecksum != 0 {
      return None;
    }
    view := ParseSegment(frame[6..12], ip[12..16], local, ip[header..total]);
  }

  method ParseSegment(mac: seq<u8>, source: seq<u8>, local: seq<u8>, tcp: seq<u8>) returns (view: Option<View>)
    requires 20 <= |tcp| < 0x1_0000 && |source| == |local| == 4
    ensures view == TcpPart(mac, source, local, tcp)
  {
    var header := (tcp[12] as int) / 16 * 4;
    if header < 20 || header > |tcp| {
      return None;
    }
    var checksum := TcpChecksum(source, local, tcp);
    if checksum != 0 {
      return None;
    }
    var options := ParseOptions(tcp[20..header]);
    if options.None? {
      return None;
    }
    view := Some(View(mac, source, Read16(tcp, 0), Read16(tcp, 2), Read32(tcp, 4), Read32(tcp, 8), tcp[13],
                      Read16(tcp, 14), options.value, tcp[header..]));
  }

  // ---- Round trip ----

  lemma {:induction false} IpVerifies(x: Sending)
    requires Addressed(x) && Fits(x)
    ensures |IpBytes(x)| == 20 && Checksum(IpBytes(x)) == 0
    ensures IpBytes(x)[..10] == IpFront(Total(x), x.identification)
    ensures IpBytes(x)[12..16] == x.source && IpBytes(x)[16..20] == x.destination
  {
    ChecksumVerifies(IpFront(Total(x), x.identification), x.source + x.destination);
  }

  lemma {:induction false} IpRead(x: Sending, ip: seq<u8>)
    requires Addressed(x) && Fits(x) && 20 <= |ip| && ip[..20] == IpBytes(x)
    ensures ip[0] == 0x45 && Read16(ip, 2) == Total(x) && Read16(ip, 6) == 0 && ip[9] == 6
    ensures ip[12..16] == x.source && ip[16..20] == x.destination && Checksum(ip[..20]) == 0
  {
    IpVerifies(x);
    var h := IpBytes(x);
    assert forall i :: 0 <= i < 10 ==> h[..10][i] == ip[..20][i] == ip[i];
    assert ip[0] == h[..10][0] && ip[2] == h[..10][2] && ip[3] == h[..10][3] && ip[6] == h[..10][6]
           && ip[7] == h[..10][7] && ip[9] == h[..10][9];
    assert ip[12..16] == ip[..20][12..16] && ip[16..20] == ip[..20][16..20];
  }

  lemma {:induction false} IpAccepted(x: Sending, padding: seq<u8>)
    requires Addressed(x) && Fits(x)
    ensures IpPart(Frame(x) + padding, x.destination) == Some((x.source, TcpBytes(x)))
    ensures |TcpBytes(x)| == Total(x) - 20 && (Frame(x) + padding)[6..12] == x.localMac
  {
    IpVerifies(x);
    TcpParts(x);
    FrameParts(EthernetHeader(x.remoteMac, x.localMac), IpBytes(x), TcpBytes(x), padding);
    IpRead(x, (Frame(x) + padding)[14..]);
  }

  lemma {:induction false} FrameParts(ethernet: seq<u8>, ip: seq<u8>, tcp: seq<u8>, padding: seq<u8>)
    requires |ethernet| == 14 && |ip| == 20
    ensures var frame := ethernet + ip + tcp + padding;
            && frame[6..12] == ethernet[6..12] && frame[12] == ethernet[12] && frame[13] == ethernet[13]
            && frame[14..] == ip + (tcp + padding) && frame[14..][..20] == ip && frame[14..][20..20 + |tcp|] == tcp
  {
  }

  lemma {:induction false} TcpVerifies(x: Sending)
    requires Addressed(x) && Fits(x)
    ensures Checksum(Pseudo(x.source, x.destination, Total(x) - 20) + TcpBytes(x)) == 0
  {
    var pseudo, front, back := Pseudo(x.source, x.destination, Total(x) - 20), TcpFront(x, HeaderWords(x)), TcpBack(x);
    assert pseudo + (front + ([0, 0] + back)) == (pseudo + front) + ([0, 0] + back);
    ChecksumVerifies(pseudo + front, back);
    var c := Checksum(pseudo + (front + ([0, 0] + back)));
    assert pseudo + (front + (Big16(c) + back)) == (pseudo + front) + (Big16(c) + back);
  }

  lemma {:induction false} TcpFields(x: Sending, tcp: seq<u8>)
    requires 16 <= |tcp| && tcp[..16] == TcpFront(x, HeaderWords(x))
    ensures Read16(tcp, 0) == x.sourcePort && Read16(tcp, 2) == x.destinationPort
    ensures Read32(tcp, 4) == x.sequence && Read32(tcp, 8) == x.acknowledgement
    ensures tcp[12] == HeaderWords(x) * 16 && tcp[13] == x.flags && Read16(tcp, 14) == SentWindow(x)
  {
    var f := TcpFront(x, HeaderWords(x));
    assert forall i :: 0 <= i < 16 ==> tcp[i] == tcp[..16][i];
    assert f[0..2] == Big16(x.sourcePort) && f[2..4] == Big16(x.destinationPort);
    assert f[4..8] == Big32(x.sequence) && f[8..12] == Big32(x.acknowledgement) && f[14..16] == Big16(SentWindow(x));
    Field16(f, 0, x.sourcePort);
    Field16(f, 2, x.destinationPort);
    Field32(f, 4, x.sequence);
    Field32(f, 8, x.acknowledgement);
    Field16(f, 14, SentWindow(x));
  }

  lemma {:induction false} Field16(s: seq<u8>, at: nat, v: u16)
    requires at + 2 <= |s| && s[at..at + 2] == Big16(v)
    ensures Read16(s, at) == v
  {
    assert s[at] == s[at..at + 2][0] && s[at + 1] == s[at..at + 2][1];
  }

  lemma {:induction false} Field32(s: seq<u8>, at: nat, v: u32)
    requires at + 4 <= |s| && s[at..at + 4] == Big32(v)
    ensures Read32(s, at) == v
  {
    var b := s[at..at + 4];
    assert s[at] == b[0] && s[at + 1] == b[1] && s[at + 2] == b[2] && s[at + 3] == b[3];
    Rebuilt(v);
  }

  lemma {:induction false} Rebuilt(v: u32)
    ensures v == v / 0x100_0000 * 0x100_0000 + v / 0x1_0000 % 0x100 * 0x1_0000 + v / 0x100 % 0x100 * 0x100 + v % 0x100
  {
    assert v / 0x1_0000 / 0x100 == v / 0x100_0000 && v / 0x100 / 0x100 == v / 0x1_0000;
  }

  ghost function Received(x: Sending): View {
    View(x.localMac, x.source, x.sourcePort, x.destinationPort, x.sequence, x.acknowledgement, x.flags, SentWindow(x),
         if HasFlag(x.flags, FLAG_SYN) then Options(Some(1460), if x.scaled then Some(0) else None)
            else Options(None, None), x.payload)
  }

  lemma {:induction false} TcpParts(x: Sending)
    requires Addressed(x) && Fits(x)
    ensures var tcp, header := TcpBytes(x), 4 * HeaderWords(x);
            && |tcp| == Total(x) - 20 && tcp[..16] == TcpFront(x, HeaderWords(x))
            && tcp[20..header] == SentOptions(x) && tcp[header..] == x.payload
  {
    var front := TcpFront(x, HeaderWords(x));
    var checksum := Checksum(Pseudo(x.source, x.destination, Total(x) - 20) + (front + ([0, 0] + TcpBack(x))));
    SegmentParts(front, Big16(checksum), SentOptions(x), x.payload);
  }

  lemma {:induction false} SegmentParts(front: seq<u8>, checksum: seq<u8>, options: seq<u8>, payload: seq<u8>)
    requires |front| == 16 && |checksum| == 2
    ensures var tcp, header := front + (checksum + ([0, 0] + options + payload)), 20 + |options|;
            |tcp| == header + |payload| && tcp[..16] == front && tcp[20..header] == options && tcp[header..] == payload
  {
  }

  lemma {:induction false} TcpAccepted(x: Sending)
    requires Addressed(x) && Fits(x)
    ensures |TcpBytes(x)| == Total(x) - 20 && TcpPart(x.localMac, x.source, x.destination, TcpBytes(x))
            == Some(Received(x))
  {
    TcpVerifies(x);
    TcpParts(x);
    TcpFields(x, TcpBytes(x));
    if HasFlag(x.flags, FLAG_SYN) {
      SynOptionsParse(x.scaled);
    }
  }

  // Every frame that is sent is accepted at its destination, with or without
  // padding behind it, and gives back what was sent.
  lemma {:induction false} RoundTrip(x: Sending, padding: seq<u8>)
    requires Addressed(x) && Fits(x)
    ensures Parsed(Frame(x) + padding, x.destination) == Some(Received(x))
  {
    IpAccepted(x, padding);
    TcpAccepted(x);
  }
}
