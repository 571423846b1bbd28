/**
  How the Go server identifies a client without storing who it is: the client address taken
  from the proxy headers, the anonymised address, the daily visitor id built from address,
  user agent and date, and the short hash of address and user agent used in counter keys.
  SHA-256 is a parameter: any function from the pre-image text to a 32-byte digest.
*/
module ClientIdentity {
  import opened Calendar
  import opened Strings
  import opened Hex
  import opened GoFormat

  /**
    `GetRealClientIP`: the Cloudflare header, else the first comma-separated element of
    X-Forwarded-For (not trimmed), else X-Real-IP, else the connection address. An absent
    header reads as "".
  */
  function GetRealClientIp(cfConnectingIp: string, forwardedFor: string, realIp: string, connectionIp: string): string {
    if cfConnectingIp != "" then cfConnectingIp
    else if forwardedFor != "" then Split(forwardedFor, ',')[0]
    else if realIp != "" then realIp
    else connectionIp
  }

  /**
    The first non-empty header wins, in the order Cloudflare, X-Forwarded-For, X-Real-IP;
    from X-Forwarded-For only the text before its first comma is taken, whole when there is no
    comma; the connection address is used only when all three are empty.
  */
  lemma ClientIpPrecedence(cf: string, xff: string, xri: string, conn: string)
    ensures cf != "" ==> GetRealClientIp(cf, xff, xri, conn) == cf
    ensures cf == "" && xff != "" ==>
      var r := GetRealClientIp(cf, xff, xri, conn);
      && |r| <= |xff| && r == xff[..|r|] && ',' !in r
      && (|r| < |xff| ==> xff[|r|] == ',')
      && (',' !in xff ==> r == xff)
    ensures cf == "" && xff == "" && xri != "" ==> GetRealClientIp(cf, xff, xri, conn) == xri
    ensures cf == "" && xff == "" && xri == "" ==> GetRealClientIp(cf, xff, xri, conn) == conn
  {
    if cf == "" && xff != "" {
      SplitPiecesHaveNoSeparator(xff, ',');
      match IndexOf(xff, ',')
      case None =>
      case Some(i) =>
        assert Split(xff, ',')[0] == xff[..i];
    }
  }

  /** An empty value replaced by "unknown". */
  function OrUnknown(s: string): string {
    if s == "" then "unknown" else s
  }

  /**
    The anonymised address: "unknown" for an empty one; a dotted address of exactly four
    parts with its last part replaced by "0"; an address without dots but with more than two
    colon-separated parts cut to its first two groups followed by "::"; anything else as it is.
  */
  function AnonymiseIp(ip: string): string {
    if ip == "" then "unknown"
    else if '.' in ip then
      var parts := Split(ip, '.');
      if |parts| == 4 then parts[0] + "." + parts[1] + "." + parts[2] + ".0" else ip
    else if ':' in ip then
      var parts := Split(ip, ':');
      if |parts| > 2 then Join(parts[..2], ":") + "::" else ip
    else ip
  }

  lemma JoinFour(a: string, b: string, c: string, d: string, sep: char)
    ensures Join([a, b, c, d], [sep]) == a + [sep] + b + [sep] + c + [sep] + d
  {
    JoinCons(a, [b, c, d], [sep]);
    JoinCons(b, [c, d], [sep]);
    JoinCons(c, [d], [sep]);
    assert [a, b, c, d][1..] == [b, c, d];
    assert [b, c, d][1..] == [c, d];
  }

  /** The IPv4 branch read back: the three leading parts are kept and the fourth is "0". */
  lemma AnonymisedIpv4(ip: string)
    requires '.' in ip && |Split(ip, '.')| == 4
    ensures Split(AnonymiseIp(ip), '.') == Split(ip, '.')[..3] + ["0"]
  {
    var p := Split(ip, '.');
    SplitPiecesHaveNoSeparator(ip, '.');
    var q := [p[0], p[1], p[2], "0"];
    assert q == p[..3] + ["0"];
    JoinFour(p[0], p[1], p[2], "0", '.');
    assert AnonymiseIp(ip) == Join(q, ['.']);
    SplitJoin(q, '.');
  }

  /** The IPv6 branch read back: the two leading groups are kept, followed by two empty groups. */
  lemma AnonymisedIpv6(ip: string)
    requires ip != "" && '.' !in ip && ':' in ip && |Split(ip, ':')| > 2
    ensures Split(AnonymiseIp(ip), ':') == Split(ip, ':')[..2] + ["", ""]
    ensures '.' !in AnonymiseIp(ip)
  {
    var p := Split(ip, ':');
    assert AnonymiseIp(ip) == Join(p[..2], ":") + "::";
    assert p[..2] == [p[0], p[1]];
    SplitPiecesHaveNoSeparator(ip, ':');
    PiecesOfSplitWithout(ip, ':', '.');
    assert ':' !in p[0] && ':' !in p[1] && '.' !in p[0] && '.' !in p[1];
    ShortenedGroups(p[0], p[1]);
  }

  /** Two colon-free groups followed by "::" split into the two groups and two empty groups. */
  lemma ShortenedGroups(a: string, b: string)
    requires ':' !in a && ':' !in b
    ensures Split(Join([a, b], ":") + "::", ':') == [a, b, "", ""]
    ensures '.' !in a && '.' !in b ==> '.' !in Join([a, b], ":") + "::"
  {
    JoinCons(a, [b], ":");
    assert [a, b][1..] == [b];
    var r := Join([a, b], ":") + "::";
    assert r == a + ":" + b + "::";
    JoinFour(a, b, "", "", ':');
    assert r == Join([a, b, "", ""], [':']);
    SplitJoin([a, b, "", ""], ':');
  }

  /** A piece of a split holds no character the split string does not hold. */
  lemma PiecesOfSplitWithout(s: string, sep: char, c: char)
    requires c !in s
    ensures forall k :: 0 <= k < |Split(s, sep)| ==> c !in Split(s, sep)[k]
  {
    JoinSplit(s, sep);
    forall k | 0 <= k < |Split(s, sep)|
      ensures c !in Split(s, sep)[k]
    {
      JoinHoldsPieces(Split(s, sep), [sep], k);
    }
  }

  /** Every piece is a contiguous part of the join. */
  lemma {:induction false} JoinHoldsPieces(parts: seq<string>, sep: string, k: nat)
    requires k < |parts|
    ensures forall c :: c in parts[k] ==> c in Join(parts, sep)
    decreases |parts|
  {
    if |parts| > 1 {
      JoinCons(parts[0], parts[1..], sep);
      assert parts == [parts[0]] + parts[1..];
      if k > 0 {
        JoinHoldsPieces(parts[1..], sep, k - 1);
      }
    }
  }

  /**
    What anonymisation keeps and drops: an empty address becomes "unknown"; a four-part dotted
    address keeps its first three parts and ends in ".0"; other dotted addresses are left as
    they are; a colon address (without dots) of more than two parts keeps its first two groups
    and ends in "::"; anything else is left as it is.
  */
  lemma AnonymiseIpSpec(ip: string)
    ensures ip == "" ==> AnonymiseIp(ip) == "unknown"
    ensures ip != "" && '.' in ip && |Split(ip, '.')| == 4 ==>
      Split(AnonymiseIp(ip), '.') == Split(ip, '.')[..3] + ["0"]
    ensures '.' in ip && |Split(ip, '.')| != 4 ==> AnonymiseIp(ip) == ip
    ensures ip != "" && '.' !in ip && ':' in ip && |Split(ip, ':')| > 2 ==>
      Split(AnonymiseIp(ip), ':') == Split(ip, ':')[..2] + ["", ""]
    ensures ip != "" && '.' !in ip && (':' in ip ==> |Split(ip, ':')| <= 2) ==> AnonymiseIp(ip) == ip
  {
    if ip != "" && '.' in ip && |Split(ip, '.')| == 4 {
      AnonymisedIpv4(ip);
    }
    if ip != "" && '.' !in ip && ':' in ip && |Split(ip, ':')| > 2 {
      AnonymisedIpv6(ip);
    }
  }

  /** Anonymising an anonymised address changes nothing. */
  lemma AnonymiseIpIdempotent(ip: string)
    ensures AnonymiseIp(AnonymiseIp(ip)) == AnonymiseIp(ip)
  {
    var r := AnonymiseIp(ip);
    if ip == "" {
      assert '.' !in "unknown" && ':' !in "unknown";
    } else if '.' in ip && |Split(ip, '.')| == 4 {
      AnonymisedIpv4(ip);
      var p := Split(ip, '.');
      assert '.' in r by {
        assert r[|p[0]|] == '.';
      }
      assert Split(r, '.') == [p[0], p[1], p[2], "0"];
    } else if '.' !in ip && ':' in ip && |Split(ip, ':')| > 2 {
      AnonymisedIpv6(ip);
      var p := Split(ip, ':');
      assert r != "" && ':' in r by {
        assert r[|p[0]|] == ':';
      }
      assert Split(r, ':')[..2] == p[..2];
      assert Join(p[..2], ":") + "::" == r;
    }
  }

  /** Two dotted addresses of four parts with the same first three parts (the same /24) anonymise alike. */
  lemma SameSubnetSameAddress(a: string, b: string)
    requires '.' in a && '.' in b
    requires |Split(a, '.')| == 4 && |Split(b, '.')| == 4
    requires Split(a, '.')[..3] == Split(b, '.')[..3]
    ensures AnonymiseIp(a) == AnonymiseIp(b)
  {
    assert Split(a, '.')[0] == Split(b, '.')[0];
    assert Split(a, '.')[1] == Split(b, '.')[1];
    assert Split(a, '.')[2] == Split(b, '.')[2];
  }

  /** The visitor-id pre-image: "ip|ua|YYYY-MM-DD" with the anonymised address and the defaulted user agent. */
  function VisitorBase(ip: string, userAgent: string, t: Instant): string {
    AnonymiseIp(ip) + "|" + OrUnknown(userAgent) + "|" + DateKey(t)
  }

  /** `GenerateAnonVisitorID`: the hexadecimal SHA-256 of the pre-image. */
  function GenerateAnonVisitorId(sha256: string -> Digest, ip: string, userAgent: string, t: Instant): string {
    HexEncode(sha256(VisitorBase(ip, userAgent, t)))
  }

  /** A visitor id is 64 lower-case hexadecimal digits, and the digest it encodes reads back from it. */
  lemma VisitorIdShape(sha256: string -> Digest, ip: string, userAgent: string, t: Instant)
    ensures var id := GenerateAnonVisitorId(sha256, ip, userAgent, t);
      |id| == 64 && IsLowerHex(id) && HexDecode(id) == sha256(VisitorBase(ip, userAgent, t))
  {
    HexRoundTrip(sha256(VisitorBase(ip, userAgent, t)));
  }

  /**
    The id rotates daily and depends on nothing finer than the day: the same address and user
    agent give the same id all day; an empty address or user agent counts as "unknown"; and two
    addresses of the same /24 with the same user agent collide on the same day.
  */
  lemma VisitorIdCollisions(sha256: string -> Digest, ip: string, ip2: string, userAgent: string, t: Instant, u: Instant)
    ensures Day(t) == Day(u) ==> GenerateAnonVisitorId(sha256, ip, userAgent, t) == GenerateAnonVisitorId(sha256, ip, userAgent, u)
    ensures GenerateAnonVisitorId(sha256, "", userAgent, t) == GenerateAnonVisitorId(sha256, "unknown", userAgent, t)
    ensures GenerateAnonVisitorId(sha256, ip, "", t) == GenerateAnonVisitorId(sha256, ip, "unknown", t)
    ensures '.' in ip && '.' in ip2 && |Split(ip, '.')| == 4 && |Split(ip2, '.')| == 4 && Split(ip, '.')[..3] == Split(ip2, '.')[..3] ==>
      GenerateAnonVisitorId(sha256, ip, userAgent, t) == GenerateAnonVisitorId(sha256, ip2, userAgent, t)
  {
    DateKeyIsTheDay(t, u);
    assert '.' !in "unknown" && ':' !in "unknown";
    if '.' in ip && '.' in ip2 && |Split(ip, '.')| == 4 && |Split(ip2, '.')| == 4 && Split(ip, '.')[..3] == Split(ip2, '.')[..3] {
      SameSubnetSameAddress(ip, ip2);
    }
  }

  /**
    The pre-image ends with the date, so for years 0 to 9999 two instants give the same
    pre-image only on the same day: the daily rotation really changes the input of the hash.
  */
  lemma VisitorBaseNamesTheDay(ip: string, userAgent: string, t: Instant, u: Instant)
    requires 0 <= YearOf(t) <= 9999 && 0 <= YearOf(u) <= 9999
    requires VisitorBase(ip, userAgent, t) == VisitorBase(ip, userAgent, u)
    ensures Day(t) == Day(u)
  {
    var head := AnonymiseIp(ip) + "|" + OrUnknown(userAgent) + "|";
    assert VisitorBase(ip, userAgent, t) == head + DateKey(t);
    assert VisitorBase(ip, userAgent, u) == head + DateKey(u);
    assert DateKey(t) == (head + DateKey(t))[|head|..];
    assert DateKey(u) == (head + DateKey(u))[|head|..];
    DateKeyIsTheDay(t, u);
  }

  /** `GetUserHash`: the first 16 hexadecimal digits of the SHA-256 of "ip|ua", with the "unknown" defaults and no date. */
  function GetUserHash(sha256: string -> Digest, ip: string, userAgent: string): string {
    HexEncode(sha256(OrUnknown(ip) + "|" + OrUnknown(userAgent)))[..16]
  }

  /**
    The user hash is 16 lower-case hexadecimal digits, the head of the full digest of
    "ip|ua"; an empty address or user agent counts as "unknown"; the address is not anonymised.
  */
  lemma UserHashSpec(sha256: string -> Digest, ip: string, userAgent: string)
    ensures var h := GetUserHash(sha256, ip, userAgent);
      var full := HexEncode(sha256(OrUnknown(ip) + "|" + OrUnknown(userAgent)));
      && |h| == 16 && IsLowerHex(h) && h == full[..16]
    ensures GetUserHash(sha256, "", userAgent) == GetUserHash(sha256, "unknown", userAgent)
    ensures GetUserHash(sha256, ip, "") == GetUserHash(sha256, ip, "unknown")
  {
    var full := HexEncode(sha256(OrUnknown(ip) + "|" + OrUnknown(userAgent)));
    HexRoundTrip(sha256(OrUnknown(ip) + "|" + OrUnknown(userAgent)));
    assert |full| == 64;
    var h := full[..16];
    assert forall i :: 0 <= i < 16 ==> h[i] == full[i];
  }
}
