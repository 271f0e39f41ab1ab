/** SOCKS5 greeting and CONNECT request (RFC 1928, sections 3, 4 and 5), read from a growing buffer. */
module Socks5 {
  import opened Wrappers
  import opened NumberText
  import opened Numerals

  type byte = x: int | 0 <= x < 256

  type Bytes = seq<byte>

  const VERSION: byte := 5
  const NO_AUTH: byte := 0
  const NO_ACCEPTABLE: byte := 255
  const CONNECT: byte := 1
  const IPV4: byte := 1
  const DOMAIN: byte := 3
  const IPV6: byte := 4

  /** Addresses arrive as bytes and are handed on as text; a domain name is handed on as it came. */
  datatype Host = Printed(text: string) | Name(bytes: Bytes)

  datatype Reply =
    | NeedMoreData
    | Connect(host: Host, port: nat, consumedBytes: nat)
    | Unsupported(code: byte, consumedBytes: nat)
    | Invalid(code: byte, consumedBytes: nat)

  function UInt16(bytes: Bytes, offset: nat): (n: nat)
    requires offset + 2 <= |bytes|
    ensures n < 65536
  {
    var high: nat := bytes[offset];
    high * 256 + bytes[offset + 1]
  }

  /** The sixteen-bit groups of an address. */
  function Groups(address: Bytes): (groups: seq<nat>)
    ensures |groups| == |address| / 2
    decreases |address|
  {
    if |address| < 2 then [] else [UInt16(address, 0)] + Groups(address[2..])
  }

  function IPv4Text(address: Bytes): (text: string) {
    PrintJoined(address, Decimal, '.')
  }

  function IPv6Text(address: Bytes): (text: string) {
    PrintJoined(Groups(address), Hexadecimal, ':')
  }

  /** Four decimal numbers between dots, one for each byte. */
  predicate IsDottedDecimal(text: string, address: Bytes)
    requires |address| == 4
  {
    var pieces := Pieces(text, '.');
    |pieces| == 4 && forall i :: 0 <= i < 4 ==> IsDecimal(pieces[i], address[i])
  }

  /** The number that two bytes stand for, the first one counting 256 times. */
  function PairAt(address: Bytes, i: nat): (n: nat)
    requires 2 * i + 1 < |address|
  {
    var high: nat, low: nat := address[2 * i], address[2 * i + 1];
    256 * high + low
  }

  /** Eight hexadecimal numbers between colons, one for each two bytes. */
  predicate IsColonHexadecimal(text: string, address: Bytes)
    requires |address| == 16
  {
    var pieces := Pieces(text, ':');
    |pieces| == 8
    && forall i :: 0 <= i < 8 ==> IsHexadecimal(pieces[i], PairAt(address, i))
  }

  lemma IPv4TextIsDotted(address: Bytes)
    requires |address| == 4
    ensures IsDottedDecimal(IPv4Text(address), address)
  {
    hide PrintJoined, Pieces, IsDecimal, Print;
    PiecesOfJoined(address, Decimal, '.');
    forall i | 0 <= i < 4
      ensures IsDecimal(Print(address[i], Decimal), address[i])
    {
      PrintIsDecimal(address[i]);
    }
  }

  lemma {:induction false} GroupAt(address: Bytes, i: nat)
    requires 2 * i + 1 < |address|
    ensures i < |Groups(address)| && Groups(address)[i] == PairAt(address, i)
    decreases i
  {
    if i > 0 {
      GroupAt(address[2..], i - 1);
    }
  }

  lemma IPv6TextIsColoned(address: Bytes)
    requires |address| == 16
    ensures IsColonHexadecimal(IPv6Text(address), address)
  {
    hide PrintJoined, Pieces, IsHexadecimal, Print, Groups;
    var groups := Groups(address);
    PiecesOfJoined(groups, Hexadecimal, ':');
    forall i | 0 <= i < 8
      ensures groups[i] == PairAt(address, i)
      ensures IsHexadecimal(Print(groups[i], Hexadecimal), groups[i])
    {
      GroupAt(address, i);
      PrintIsHexadecimal(groups[i]);
    }
  }

  /** What a buffer starting with a request amounts to. */
  function Parsed(buffer: Bytes): (reply: Reply) {
    if |buffer| < 4 then NeedMoreData
    else if buffer[0] != VERSION then Invalid(1, |buffer|)
    else if buffer[1] != CONNECT then Unsupported(7, |buffer|)
    else if buffer[3] == IPV4 then
      if |buffer| < 10 then NeedMoreData else Finished(Printed(IPv4Text(buffer[4..8])), buffer, 8)
    else if buffer[3] == DOMAIN then
      if |buffer| < 5 || |buffer| - 7 < buffer[4] then NeedMoreData
      else
        var length: nat := buffer[4];
        Finished(Name(buffer[5..5 + length]), buffer, 5 + length)
    else if buffer[3] == IPV6 then
      if |buffer| < 22 then NeedMoreData else Finished(Printed(IPv6Text(buffer[4..20])), buffer, 20)
    else Unsupported(8, |buffer|)
  }

  function Finished(host: Host, buffer: Bytes, offset: nat): (reply: Reply)
    requires offset + 2 <= |buffer|
  {
    var port := UInt16(buffer, offset);
    if host == Name([]) || port < 1 then Invalid(4, offset + 2) else Connect(host, port, offset + 2)
  }

  /** The host handed on is the address or name that the request carries. */
  predicate HostIsRead(buffer: Bytes, host: Host)
    requires |buffer| >= 5
  {
    match buffer[3]
    case 1 => |buffer| >= 8 && host.Printed? && IsDottedDecimal(host.text, buffer[4..8])
    case 4 => |buffer| >= 20 && host.Printed? && IsColonHexadecimal(host.text, buffer[4..20])
    case _ => var length: nat := buffer[4]; length > 0 && |buffer| >= 5 + length && host == Name(buffer[5..5 + length])
  }

  lemma HostIsAsSent(buffer: Bytes)
    ensures Parsed(buffer).Connect? ==> |buffer| >= 5 && HostIsRead(buffer, Parsed(buffer).host)
  {
    hide IPv4Text, IPv6Text, IsDottedDecimal, IsColonHexadecimal;
    if Parsed(buffer).Connect? {
      if buffer[3] == IPV4 {
        IPv4TextIsDotted(buffer[4..8]);
      } else if buffer[3] == IPV6 {
        IPv6TextIsColoned(buffer[4..20]);
      }
    }
  }

  /** Reads one request, moving an offset over the buffer. */
  method ParseSocks5ConnectRequest(buffer: Bytes) returns (reply: Reply)
    ensures reply == Parsed(buffer)
    ensures reply.Connect? ==> HostIsRead(buffer, reply.host)
  {
    hide Print, PrintJoined, HostIsRead;
    HostIsAsSent(buffer);
    if |buffer| < 4 {
      return NeedMoreData;
    }
    if buffer[0] != VERSION {
      return Invalid(1, |buffer|);
    }
    var command, addressType := buffer[1], buffer[3];
    if command != CONNECT {
      return Unsupported(7, |buffer|);
    }
    var offset: nat := 4;
    var host := Name([]);
    if addressType == IPV4 {
      if |buffer| < offset + 4 + 2 {
        return NeedMoreData;
      }
      JoinOfPrinted(buffer[offset..offset + 4], Decimal, '.');
      host := Printed(Join(PrintAll(buffer[offset..offset + 4], Decimal), '.'));
      offset := offset + 4;
    } else if addressType == DOMAIN {
      if |buffer| < offset + 1 {
        return NeedMoreData;
      }
      var domainLength: nat := buffer[offset];
      offset := offset + 1;
      if |buffer| < offset + domainLength + 2 {
        return NeedMoreData;
      }
      host := Name(buffer[offset..offset + domainLength]);
      offset := offset + domainLength;
    } else if addressType == IPV6 {
      if |buffer| < offset + 16 + 2 {
        return NeedMoreData;
      }
      var segments := ReadSegments(buffer, offset);
      JoinOfPrinted(Groups(buffer[offset..offset + 16]), Hexadecimal, ':');
      host := Printed(Join(segments, ':'));
      offset := offset + 16;
    } else {
      return Unsupported(8, |buffer|);
    }
    var port := UInt16(buffer, offset);
    offset := offset + 2;
    if host == Name([]) || port < 1 || port > 65535 {
      return Invalid(4, offset);
    }
    reply := Connect(host, port, offset);
  }

  /** The eight hexadecimal groups of an IPv6 address. */
  method ReadSegments(buffer: Bytes, offset: nat) returns (segments: seq<string>)
    requires offset + 16 <= |buffer|
    ensures segments == PrintAll(Groups(buffer[offset..offset + 16]), Hexadecimal)
  {
    hide Print, Groups, PrintAll, UInt16;
    segments := [];
    NoSegments();
    var index := 0;
    ghost var address := buffer[offset..offset + 16];
    while index < 16
      invariant 0 <= index <= 16 && index % 2 == 0
      invariant segments == PrintAll(Groups(address[..index]), Hexadecimal)
    {
      SegmentsGrow(buffer, offset, index);
      var group := UInt16(buffer, offset + index);
      segments := segments + [Print(group, Hexadecimal)];
      index := index + 2;
    }
    assert address[..16] == address;
  }

  lemma NoSegments()
    ensures PrintAll(Groups([]), Hexadecimal) == []
  {
  }

  lemma SegmentsGrow(buffer: Bytes, offset: nat, index: nat)
    requires offset + 16 <= |buffer| && index % 2 == 0 && index < 16
    ensures var address := buffer[offset..offset + 16];
            PrintAll(Groups(address[..index + 2]), Hexadecimal)
            == PrintAll(Groups(address[..index]), Hexadecimal) + [Print(UInt16(buffer, offset + index), Hexadecimal)]
  {
    hide Print, Groups;
    var address := buffer[offset..offset + 16];
    GroupsGrow(address, index);
    var groups := Groups(address[..index + 2]);
    assert groups[..|groups| - 1] == Groups(address[..index]);
  }

  lemma GroupsFirst(address: Bytes)
    requires |address| >= 2
    ensures Groups(address) == [UInt16(address, 0)] + Groups(address[2..])
  {
  }

  lemma SameUInt16(a: Bytes, i: nat, b: Bytes, j: nat)
    requires i + 2 <= |a| && j + 2 <= |b| && a[i..i + 2] == b[j..j + 2]
    ensures UInt16(a, i) == UInt16(b, j)
  {
    assert a[i] == a[i..i + 2][0] && a[i + 1] == a[i..i + 2][1];
    assert b[j] == b[j..j + 2][0] && b[j + 1] == b[j..j + 2][1];
  }

  lemma {:induction false} GroupsGrow(address: Bytes, index: nat)
    requires index % 2 == 0 && index + 2 <= |address|
    ensures Groups(address[..index + 2]) == Groups(address[..index]) + [UInt16(address, index)]
    decreases index
  {
    var grown, before := address[..index + 2], address[..index];
    GroupsFirst(grown);
    hide Groups, UInt16;
    SameUInt16(grown, 0, address, 0);
    if index == 0 {
      NoGroups(before);
      NoGroups(grown[2..]);
    } else {
      GroupsFirst(before);
      SameUInt16(before, 0, address, 0);
      GroupsGrow(address[2..], index - 2);
      SameUInt16(address[2..], index - 2, address, index);
      assert grown[2..] == address[2..][..index];
      assert before[2..] == address[2..][..index - 2];
    }
  }

  lemma NoGroups(address: Bytes)
    requires |address| < 2
    ensures Groups(address) == []
  {
  }

  // ---------------------------------------------------------------------------------------------
  // Requests and their encoding

  datatype Target = ToIPv4(address: Bytes) | ToDomain(name: Bytes) | ToIPv6(address: Bytes)
  {
    predicate Valid() {
      match this case ToIPv4(a) => |a| == 4 case ToDomain(n) => 1 <= |n| <= 255 case ToIPv6(a) => |a| == 16
    }

    function Host(): (host: Host) {
      match this
      case ToIPv4(a) => Printed(IPv4Text(a))
      case ToDomain(n) => Name(n)
      case ToIPv6(a) => Printed(IPv6Text(a))
    }
  }

  /** The host names the target: the address in its usual notation, or the name as it came. */
  predicate Names(host: Host, target: Target)
    requires target.Valid()
  {
    match target
    case ToIPv4(a) => host.Printed? && IsDottedDecimal(host.text, a)
    case ToDomain(n) => host == Name(n)
    case ToIPv6(a) => host.Printed? && IsColonHexadecimal(host.text, a)
  }

  lemma HostNamesTarget(target: Target)
    requires target.Valid()
    ensures Names(target.Host(), target)
  {
    hide IPv4Text, IPv6Text, IsDottedDecimal, IsColonHexadecimal;
    match target {
      case ToIPv4(a) => IPv4TextIsDotted(a);
      case ToDomain(_) =>
      case ToIPv6(a) => IPv6TextIsColoned(a);
    }
  }

  /** A CONNECT request as a client writes it. */
  function Encoded(target: Target, port: nat, reserved: byte): (bytes: Bytes)
    requires target.Valid() && port < 65536
  {
    var address := match target
      case ToIPv4(a) => [1] + a
      case ToDomain(n) => [3, |n|] + n
      case ToIPv6(a) => [4] + a;
    [5, 1, reserved] + address + [port / 256, port % 256]
  }

  lemma PartsOf(head: Bytes, middle: Bytes, high: byte, low: byte, suffix: Bytes)
    ensures var request := head + middle + [high, low];
            var buffer := request + suffix;
            && buffer[..|head|] == head && buffer[|head|..|head| + |middle|] == middle
            && buffer[|request| - 2] == high && buffer[|request| - 1] == low
  {
    var request := head + middle + [high, low];
    assert (request + suffix)[..|request|] == request;
  }

  /** Where the parts of a request stand in the buffer. */
  lemma EncodedLayout(target: Target, port: nat, reserved: byte, suffix: Bytes)
    requires target.Valid() && port < 65536
    ensures var request := Encoded(target, port, reserved);
            var buffer := request + suffix;
            && |request| == 6 + (match target case ToIPv4(_) => 4 case ToDomain(n) => 1 + |n| case ToIPv6(_) => 16)
            && buffer[0] == 5 && buffer[1] == 1
            && buffer[|request| - 2] == port / 256 && buffer[|request| - 1] == port % 256
            && match target
               case ToIPv4(a) => buffer[3] == 1 && buffer[4..8] == a
               case ToDomain(n) => buffer[3] == 3 && buffer[4] == |n| && buffer[5..5 + |n|] == n
               case ToIPv6(a) => buffer[3] == 4 && buffer[4..20] == a
  {
    hide Encoded;
    var head := match target
      case ToIPv4(_) => [5, 1, reserved, 1]
      case ToDomain(n) => [5, 1, reserved, 3, |n|]
      case ToIPv6(_) => [5, 1, reserved, 4];
    var carried := match target case ToIPv4(a) => a case ToDomain(n) => n case ToIPv6(a) => a;
    EncodedParts(target, port, reserved, head, carried);
    PartsOf(head, carried, port / 256, port % 256, suffix);
    assert forall i :: 0 <= i < |head| ==> head[i] == (head + carried + [port / 256, port % 256] + suffix)[i];
  }

  lemma EncodedParts(target: Target, port: nat, reserved: byte, head: Bytes, carried: Bytes)
    requires target.Valid() && port < 65536
    requires match target
             case ToIPv4(a) => head == [5, 1, reserved, 1] && carried == a
             case ToDomain(n) => head == [5, 1, reserved, 3, |n|] && carried == n
             case ToIPv6(a) => head == [5, 1, reserved, 4] && carried == a
    ensures Encoded(target, port, reserved) == head + carried + [port / 256, port % 256]
  {
  }

  /** A request followed by anything is read back, and exactly its bytes are consumed. */
  lemma EncodedConnects(target: Target, port: nat, reserved: byte, suffix: Bytes)
    requires target.Valid() && 1 <= port < 65536
    ensures Parsed(Encoded(target, port, reserved) + suffix)
            == Connect(target.Host(), port, |Encoded(target, port, reserved)|)
    ensures Names(target.Host(), target)
  {
    HostNamesTarget(target);
    EncodedLayout(target, port, reserved, suffix);
    hide IPv4Text, IPv6Text, Encoded, Names;
  }

  /** Only the encoding of some target connects, to that target. */
  lemma ConnectIsEncoded(buffer: Bytes) returns (target: Target, reserved: byte)
    requires Parsed(buffer).Connect?
    ensures var Connect(host, port, consumed) := Parsed(buffer);
            && target.Valid() && 1 <= port < 65536 && consumed <= |buffer|
            && host == target.Host() && Names(host, target) && buffer[..consumed] == Encoded(target, port, reserved)
  {
    hide IPv4Text, IPv6Text, Names;
    reserved := buffer[2];
    target := if buffer[3] == IPV4 then ToIPv4(buffer[4..8])
              else if buffer[3] == IPV6 then ToIPv6(buffer[4..20])
              else ToDomain(buffer[5..5 + buffer[4]]);
    var Connect(host, port, consumed) := Parsed(buffer);
    assert port == UInt16(buffer, consumed - 2);
    var request := Encoded(target, port, reserved);
    assert port / 256 == buffer[consumed - 2] && port % 256 == buffer[consumed - 1];
    assert |request| == consumed;
    assert buffer[..consumed] == request;
    HostNamesTarget(target);
  }

  /** No strict prefix of a request is taken for anything but an unfinished one. */
  lemma PrefixNeedsMore(target: Target, port: nat, reserved: byte, k: nat)
    requires target.Valid() && port < 65536 && k < |Encoded(target, port, reserved)|
    ensures Parsed(Encoded(target, port, reserved)[..k]) == NeedMoreData
  {
    var request := Encoded(target, port, reserved);
    assert k > 3 ==> request[..k][3] == request[3];
    assert k > 4 ==> request[..k][4] == request[4];
    assert target.ToDomain? ==> request[4] == |target.name|;
  }

  // ---------------------------------------------------------------------------------------------
  // Refusals

  /** A request for port zero is refused, whatever its target. */
  lemma PortZeroIsRefused(target: Target, reserved: byte, suffix: Bytes)
    requires target.Valid()
    ensures Parsed(Encoded(target, 0, reserved) + suffix) == Invalid(4, |Encoded(target, 0, reserved)|)
  {
    EncodedLayout(target, 0, reserved, suffix);
    hide IPv4Text, IPv6Text, Encoded;
  }

  /** So is one for a name of no bytes, whatever its port. */
  lemma EmptyNameIsRefused(reserved: byte, port: nat, suffix: Bytes)
    requires port < 65536
    ensures Parsed([5, 1, reserved, 3, 0, port / 256, port % 256] + suffix) == Invalid(4, 7)
  {
    var buffer := [5, 1, reserved, 3, 0, port / 256, port % 256] + suffix;
    assert buffer[5..5] == [];
  }

  /**
   * The reply codes of RFC 1928 section 6, for every buffer: 1 for another version, 7 for another command,
   * 8 for another address type, 4 only for port zero or an empty name.
   */
  lemma RefusalCodes(buffer: Bytes)
    requires |buffer| >= 4
    ensures var reply := Parsed(buffer);
            && (reply.Invalid? && reply.code == 1 <==> buffer[0] != 5)
            && (reply.Unsupported? && reply.code == 7 <==> buffer[0] == 5 && buffer[1] != 1)
            && (reply.Unsupported? && reply.code == 8 <==>
                buffer[0] == 5 && buffer[1] == 1 && buffer[3] != 1 && buffer[3] != 3 && buffer[3] != 4)
            && (reply.Unsupported? ==> reply.code == 7 || reply.code == 8)
            && (reply.Invalid? ==> reply.code == 1 || reply.code == 4)
            && (reply.Invalid? && reply.code == 4 ==>
                  || (buffer[3] == 3 && |buffer| >= 5 && buffer[4] == 0)
                  || (2 <= reply.consumedBytes <= |buffer|
                      && buffer[reply.consumedBytes - 2] == 0 && buffer[reply.consumedBytes - 1] == 0))
  {
    hide IPv4Text, IPv6Text;
  }

  /** The reply to a request has the layout of a request for address and port zero, the code in the command's place. */
  lemma ResponseIsLaidOut(code: byte)
    ensures Response(code) == Encoded(ToIPv4([0, 0, 0, 0]), 0, 0)[1 := code]
  {
  }

  /** The same verdict, apart from how much of a rejected buffer is said to be consumed. */
  predicate SameVerdict(a: Reply, b: Reply) {
    match a
    case NeedMoreData => b.NeedMoreData?
    case Connect(_, _, _) => a == b
    case Unsupported(code, _) => b.Unsupported? && b.code == code
    case Invalid(code, _) => b.Invalid? && b.code == code
  }

  /** Once decided, more bytes do not change the verdict. */
  lemma ParsedStable(buffer: Bytes, more: Bytes)
    requires !Parsed(buffer).NeedMoreData?
    ensures SameVerdict(Parsed(buffer), Parsed(buffer + more))
  {
    hide IPv4Text, IPv6Text;
    var all := buffer + more;
    assert |buffer| >= 10 ==> all[4..8] == buffer[4..8];
    assert |buffer| >= 22 ==> all[4..20] == buffer[4..20];
    assert |buffer| >= 5 && |buffer| - 7 >= buffer[4] ==> all[5..5 + buffer[4]] == buffer[5..5 + buffer[4]];
  }

  /** A request is never waited for beyond the longest one. */
  lemma LongEnoughIsDecided(buffer: Bytes)
    requires |buffer| >= 262
    ensures !Parsed(buffer).NeedMoreData?
  {
  }

  lemma {:induction false} GroupsInjective(a: Bytes, b: Bytes)
    requires |a| % 2 == 0 && |b| % 2 == 0 && Groups(a) == Groups(b)
    ensures a == b
    decreases |a|
  {
    if |a| < 2 || |b| < 2 {
      assert |Groups(a)| == |Groups(b)|;
    } else {
      assert Groups(a)[0] == Groups(b)[0] && Groups(a)[1..] == Groups(a[2..]) && Groups(b)[1..] == Groups(b[2..]);
      GroupsInjective(a[2..], b[2..]);
      assert a == a[..2] + a[2..] && b == b[..2] + b[2..];
      assert a[..2] == b[..2];
    }
  }

  /** The printed address determines the address. */
  lemma TextDeterminesAddress(a: Bytes, b: Bytes)
    ensures IPv4Text(a) == IPv4Text(b) ==> a == b
    ensures |a| == |b| == 16 && IPv6Text(a) == IPv6Text(b) ==> a == b
  {
    if IPv4Text(a) == IPv4Text(b) {
      JoinedInjective(a, b, Decimal, '.');
    }
    if |a| == |b| == 16 && IPv6Text(a) == IPv6Text(b) {
      JoinedInjective(Groups(a), Groups(b), Hexadecimal, ':');
      GroupsInjective(a, b);
    }
  }

  // ---------------------------------------------------------------------------------------------
  // Greeting and replies

  datatype Greeting = Rejected | Incomplete | Accepted(remaining: Bytes)

  /** The greeting's reply, and what follows it. */
  method HandleSocks5Greeting(chunk: Bytes) returns (greeting: Greeting, reply: Option<Bytes>)
    ensures greeting == Greeted(chunk)
    ensures reply == match greeting
              case Rejected => Some([VERSION, NO_ACCEPTABLE])
              case Incomplete => None
              case Accepted(_) => Some([VERSION, NO_AUTH])
  {
    if |chunk| < 2 || chunk[0] != VERSION {
      return Rejected, Some([VERSION, NO_ACCEPTABLE]);
    }
    var methodCount: nat := chunk[1];
    var expectedLength := 2 + methodCount;
    if |chunk| < expectedLength {
      return Incomplete, None;
    }
    var methods := chunk[2..expectedLength];
    if NO_AUTH !in methods {
      return Rejected, Some([VERSION, NO_ACCEPTABLE]);
    }
    return Accepted(chunk[expectedLength..]), Some([VERSION, NO_AUTH]);
  }

  function Greeted(chunk: Bytes): (greeting: Greeting) {
    if |chunk| < 2 || chunk[0] != VERSION then Rejected
    else if |chunk| - 2 < chunk[1] then Incomplete
    else if NO_AUTH in chunk[2..2 + chunk[1]] then Accepted(chunk[2 + chunk[1]..])
    else Rejected
  }

  function Response(code: byte): (bytes: Bytes) {
    [VERSION, code, 0, IPV4, 0, 0, 0, 0, 0, 0]
  }
}
