/**
 * What both ends of the lobby protocol share: transport addresses and the
 * text key the relay derives from them, and the 32-bit float coordinates
 * carried in messages.
 */
module Wire {
  import opened JavaText

  /** The UDP port the relay listens on and every peer sends to. */
  const ServerPort: int := 5555

  /** A transport address: `ip` is the text InetAddress.toString() gives for it
      (for example "/127.0.0.1"), `port` the UDP port. */
  datatype Address = Address(ip: string, port: int)

  /** The relay's lookup key for an address: the IP text, a colon, the port in decimal. */
  function SocketKey(a: Address): string
  {
    a.ip + ":" + IntText(a.port)
  }

  /** The key identifies the address, even for IPv6 texts that contain colons
      themselves: the port text has no colon, so the last colon of a key is the
      separator. */
  lemma SocketKeyInjective(a: Address, b: Address)
    requires SocketKey(a) == SocketKey(b)
    ensures a == b
  {
    var k := SocketKey(a);
    SeparatorIsLastColon(a.ip, IntText(a.port));
    SeparatorIsLastColon(b.ip, IntText(b.port));
    assert |a.ip| == |b.ip|;
    assert a.ip == k[..|a.ip|] == b.ip;
    assert IntText(a.port) == k[|a.ip| + 1..] == IntText(b.port);
    IntTextInjective(a.port, b.port);
  }

  lemma SeparatorIsLastColon(ip: string, port: string)
    requires NoColon(port)
    ensures var k := ip + ":" + port;
      k[|ip|] == ':' && forall i :: |ip| < i < |k| ==> k[i] != ':'
  {
    var k := ip + ":" + port;
    forall i | |ip| < i < |k| ensures k[i] != ':' {
      assert k[i] == port[i - |ip| - 1];
    }
  }

  /** A Java float, kept as its 32 IEEE-754 bits; no arithmetic is done on it. */
  datatype Coord = Coord(bits: bv32)

  /** 0.0f, the value an unset ClientInfo coordinate holds. */
  const ZeroCoord: Coord := Coord(0)
  /** -1.0f, the placeholder coordinate a PlayerJoined announcement carries. */
  const MinusOneCoord: Coord := Coord(0xBF80_0000)

  /** Float.parseFloat (None where it throws NumberFormatException) and the
      decimal text Java gives a float in string concatenation. Both belong to
      the Java runtime and are taken as given. */
  datatype FloatFormat = FloatFormat(parse: string -> Option<Coord>, show: Coord -> string)

  /** The printed form of `c` survives being put in a message: it is non-empty,
      has no colon and no blank, and reads back as `c`. Float.toString output
      ("1.5", "-0.0", "NaN", "Infinity", "1.0E10") is of this kind. */
  predicate Prints(ff: FloatFormat, c: Coord)
  {
    var s := ff.show(c);
    && s != []
    && NoColon(s)
    && (forall i :: 0 <= i < |s| ==> !IsTrimmable(s[i]))
    && ff.parse(s) == Some(c)
  }
}
