/** The textual form of an IPv6 address, as `Addr2Str` of net_util.cpp prints it, and as section 2.2 of
    RFC 4291 reads it. */
module Ipv6Text {
  import opened RingTypes
  import opened Text

  type Address = a: seq<Byte> | |a| == 16 witness seq(16, _ => 0)

  /** Two bytes in network byte order. */
  function Pair(high: Byte, low: Byte): (g: nat)
    ensures g < 0x1_0000 && g / 256 == high && g % 256 == low
  {
    var h: int, l: int := high, low;
    h * 256 + l
  }

  /** The 16-bit group at `i`, from network byte order. */
  function Group(a: Address, i: nat): (g: nat)
    requires i < 8
    ensures g < 0x1_0000
  {
    Pair(a[2 * i], a[2 * i + 1])
  }

  function Groups(a: Address): (gs: seq<nat>)
    ensures |gs| == 8 && forall i :: 0 <= i < 8 ==> gs[i] == Group(a, i)
  {
    seq(8, i requires 0 <= i < 8 => Group(a, i))
  }

  predicate GroupsOk(gs: seq<nat>) {
    forall i :: 0 <= i < |gs| ==> gs[i] < 0x1_0000
  }

  /** An IPv4-mapped address. */
  predicate IsMapped(a: Address) {
    (forall i :: 0 <= i < 10 ==> a[i] == 0) && a[10] == 0xFF && a[11] == 0xFF
  }

  // -------------------------------------------------------------- printing

  /** `%X`. */
  function Hex(v: nat): (s: string)
    ensures |s| >= 1
  {
    if v < 16 then [Digit(v, true)] else Hex(v / 16) + [Digit(v % 16, true)]
  }

  /** `%u`. */
  function Dec(v: nat): (s: string)
    ensures |s| >= 1
  {
    if v < 10 then [Digit(v, true)] else Dec(v / 10) + [Digit(v % 10, true)]
  }

  /** What the loop of `Addr2Str` prints from group `i` on. The first run of zero groups is left out,
      except for the last group, which is always printed. */
  function PrintFrom(gs: seq<nat>, i: nat, hasCompact: bool, inCompact: bool): string
    requires |gs| == 8 && i <= 8
    decreases 8 - i
  {
    if i == 8 then ""
    else if i < 7 && gs[i] == 0 && (!hasCompact || inCompact) then
      (if hasCompact then "" else ":") + PrintFrom(gs, i + 1, true, true)
    else
      (if i > 0 then ":" else "") + Hex(gs[i]) + PrintFrom(gs, i + 1, hasCompact, inCompact && (i == 7 || gs[i] == 0))
  }

  function Dotted(a: Address): string {
    Dec(a[12]) + "." + (Dec(a[13]) + "." + (Dec(a[14]) + "." + Dec(a[15])))
  }

  function Printed(a: Address): string {
    if IsMapped(a) then "::FFFF:" + Dotted(a) else PrintFrom(Groups(a), 0, false, false)
  }

  /** Groups in hexadecimal with colons between them. */
  function Join(gs: seq<nat>): string {
    if gs == [] then "" else if |gs| == 1 then Hex(gs[0]) else Hex(gs[0]) + ":" + Join(gs[1..])
  }

  /** The first zero group from `i` on, the last group not counted; 7 if there is none. */
  function FirstZero(gs: seq<nat>, i: nat): (z: nat)
    requires |gs| == 8 && i <= 7
    ensures i <= z <= 7 && (z < 7 ==> gs[z] == 0) && forall k :: i <= k < z ==> gs[k] != 0
    decreases 7 - i
  {
    if i == 7 || gs[i] == 0 then i else FirstZero(gs, i + 1)
  }

  /** The first group from `i` on that is not zero; 7, the last one, at the latest. */
  function RunEnd(gs: seq<nat>, i: nat): (e: nat)
    requires |gs| == 8 && i <= 7
    ensures i <= e <= 7 && (e < 7 ==> gs[e] != 0) && forall k :: i <= k < e ==> gs[k] == 0
    decreases 7 - i
  {
    if i == 7 || gs[i] != 0 then i else RunEnd(gs, i + 1)
  }

  /** A digit is neither a separator nor the terminator. */
  lemma DigitPlain(v: nat)
    requires v < 16
    ensures var d := Digit(v, true); d != ':' && d != '.' && d != '\0' && GetXValue(d) == v
    ensures v < 10 ==> '0' <= Digit(v, true) <= '9'
  {
    DigitValue(v, true);
    if v < 10 {
      assert Digit(v, true) == ['0', '1', '2', '3', '4', '5', '6', '7', '8', '9'][v];
    }
  }

  lemma HexPlain(v: nat)
    ensures forall k :: 0 <= k < |Hex(v)| ==> var d := Hex(v)[k]; d != ':' && d != '.' && d != '\0'
    ensures IsHex(Hex(v)) && HexNumber(Hex(v)) == v
  {
    HexDigits(v);
    HexValue(v);
  }

  lemma {:induction false} HexDigits(v: nat)
    ensures forall k :: 0 <= k < |Hex(v)| ==> PlainDigit(Hex(v)[k])
    decreases v
  {
    DigitPlain(v % 16);
    if v >= 16 {
      HexDigits(v / 16);
    }
  }

  predicate PlainDigit(d: char) {
    d != ':' && d != '.' && d != '\0' && GetXValue(d) >= 0
  }

  lemma {:induction false} HexValue(v: nat)
    ensures HexNumber(Hex(v)) == v
    decreases v
  {
    DigitPlain(v % 16);
    if v >= 16 {
      HexValue(v / 16);
      assert Hex(v)[..|Hex(v)| - 1] == Hex(v / 16);
    } else {
      assert Hex(v)[..0] == "";
    }
  }

  /** Numbers are printed without leading zeros, in upper case. */
  lemma {:induction false} HexShortest(v: nat)
    ensures |Hex(v)| == 1 || Hex(v)[0] != '0'
    ensures forall k :: 0 <= k < |Hex(v)| ==> '0' <= Hex(v)[k] <= '9' || 'A' <= Hex(v)[k] <= 'F'
    decreases v
  {
    DigitIs(v % 16, true);
    if v >= 16 {
      HexShortest(v / 16);
      DigitIs(v / 16 % 16, true);
    }
  }

  lemma {:induction false} DecShortest(v: nat)
    ensures |Dec(v)| == 1 || Dec(v)[0] != '0'
    decreases v
  {
    DigitIs(v % 10, true);
    if v >= 10 {
      DecShortest(v / 10);
      DigitIs(v / 10 % 10, true);
    }
  }

  lemma {:induction false} HexLength(v: nat, k: nat)
    requires 1 <= k <= 4 && v < [1, 16, 256, 4096, 65536][k]
    ensures |Hex(v)| <= k
  {
    if v >= 16 {
      HexLength(v / 16, k - 1);
    }
  }

  method SprintfX(buf: array<char>, pos: nat, v: nat)
    requires pos + |Hex(v)| < buf.Length
    modifies buf
    ensures buf[pos..pos + |Hex(v)|] == Hex(v) && buf[pos + |Hex(v)|] == '\0'
    ensures buf[..pos] == old(buf[..pos])
  {
    var s := Hex(v);
    for k := 0 to |s|
      invariant buf[pos..pos + k] == s[..k]
      invariant forall j :: 0 <= j < pos ==> buf[j] == old(buf[j])
    {
      buf[pos + k] := s[k];
      assert buf[pos..pos + k + 1] == buf[pos..pos + k] + [s[k]];
    }
    buf[pos + |s|] := '\0';
  }

  method StrLen(buf: array<char>) returns (n: nat)
    requires exists k :: 0 <= k < buf.Length && buf[k] == '\0'
    ensures n < buf.Length && buf[n] == '\0' && forall k :: 0 <= k < n ==> buf[k] != '\0'
  {
    n := 0;
    while buf[n] != '\0'
      invariant n < buf.Length && forall k :: 0 <= k < n ==> buf[k] != '\0'
      decreases buf.Length - n
    {
      n := n + 1;
    }
  }

  /** `Addr2Str` on an IPv6 address. Its 64-character buffer always suffices. */
  method Addr2Str(a: Address) returns (s: string)
    ensures s == Printed(a)
    ensures (forall i :: 0 <= i < 10 ==> a[i] == 0) && a[10] == a[11] == 0xFF ==>
      s == "::FFFF:" + (Dec(a[12]) + "." + (Dec(a[13]) + "." + (Dec(a[14]) + "." + Dec(a[15]))))
    ensures !IsMapped(a) ==> var gs := Groups(a); var z := FirstZero(gs, 0);
      s == if z == 7 then Join(gs) else Join(gs[..z]) + "::" + Join(gs[RunEnd(gs, z + 1)..])
  {
    if IsMapped(a) {
      s := "::FFFF:" + (Dec(a[12]) + "." + (Dec(a[13]) + "." + (Dec(a[14]) + "." + Dec(a[15]))));
      return;
    }
    PrintedIs(a);
    s := GroupsText(a);
  }

  /** The loop over the groups. */
  method GroupsText(a: Address) returns (s: string)
    ensures s == PrintFrom(Groups(a), 0, false, false)
  {
    var addrBuf := new char[64](_ => 'x');
    var hasCompact, inCompact := false, false;
    var pos: nat := 0;
    ghost var gs := Groups(a);
    for n := 0 to 8
      invariant pos <= 5 * n
      invariant forall k :: 0 <= k < pos ==> addrBuf[k] != '\0'
      invariant PrintFrom(gs, 0, false, false) == addrBuf[..pos] + PrintFrom(gs, n, hasCompact, inCompact)
    {
      var cur := Group(a, n);
      ghost var text, has, inside := addrBuf[..pos], hasCompact, inCompact;
      var needPrint := true;
      if n == 7 {
      } else if cur == 0 {
        if !hasCompact || inCompact {
          if !hasCompact {
            hasCompact := true;
            pos := Append(addrBuf, pos, ':');
          }
          inCompact := true;
          needPrint := false;
        }
      } else {
        inCompact := false;
      }
      if needPrint {
        pos := PrintOne(addrBuf, pos, n, cur);
        PrintedNext(gs, n, text, has, inside);
      } else {
        SkippedNext(gs, n, text, has, inside);
      }
    }
    s := addrBuf[..pos];
    assert PrintFrom(gs, 8, hasCompact, inCompact) == "";
  }

  /** A printed group, with the colon before it. */
  function Field(n: nat, cur: nat): string {
    (if n > 0 then ":" else "") + Hex(cur)
  }

  lemma PrintedNext(gs: seq<nat>, n: nat, text: string, has: bool, inside: bool)
    requires |gs| == 8 && n < 8 && !(n < 7 && gs[n] == 0 && (!has || inside))
    ensures text + PrintFrom(gs, n, has, inside) ==
      (text + Field(n, gs[n])) + PrintFrom(gs, n + 1, has, inside && (n == 7 || gs[n] == 0))
  {
    Assoc(text, Field(n, gs[n]), PrintFrom(gs, n + 1, has, inside && (n == 7 || gs[n] == 0)));
  }

  lemma SkippedNext(gs: seq<nat>, n: nat, text: string, has: bool, inside: bool)
    requires |gs| == 8 && n < 7 && gs[n] == 0 && (!has || inside)
    ensures text + PrintFrom(gs, n, has, inside) == (if has then text else text + ":") + PrintFrom(gs, n + 1, true,
        true)
  {
  }

  /** The printing of one group: a colon, `sprintf` and `strlen`. */
  method PrintOne(addrBuf: array<char>, pos0: nat, n: nat, cur: nat) returns (pos: nat)
    requires pos0 + 6 <= addrBuf.Length && cur < 0x1_0000
    requires forall k :: 0 <= k < pos0 ==> addrBuf[k] != '\0'
    modifies addrBuf
    ensures pos <= pos0 + (if n > 0 then 5 else 4)
    ensures addrBuf[..pos] == old(addrBuf[..pos0]) + Field(n, cur)
    ensures forall k :: 0 <= k < pos ==> addrBuf[k] != '\0'
  {
    HexFour(cur);
    ghost var digits := Hex(cur);
    ghost var text := addrBuf[..pos0];
    var start := PutColon(addrBuf, pos0, n);
    ghost var colon := if n > 0 then ":" else "";
    pos := PutHex(addrBuf, start, cur, digits, text + colon);
    assert (text + colon) + digits == text + (colon + digits);
  }

  lemma HexFour(cur: nat)
    requires cur < 0x1_0000
    ensures |Hex(cur)| <= 4 && '\0' !in Hex(cur)
  {
    HexPlain(cur);
    HexLength(cur, 4);
  }

  /** The colon before every group but the first. */
  method PutColon(addrBuf: array<char>, pos0: nat, n: nat) returns (pos: nat)
    requires pos0 < addrBuf.Length && forall k :: 0 <= k < pos0 ==> addrBuf[k] != '\0'
    modifies addrBuf
    ensures pos == (if n > 0 then pos0 + 1 else pos0)
    ensures addrBuf[..pos] == old(addrBuf[..pos0]) + if n > 0 then ":" else ""
    ensures forall k :: 0 <= k < pos ==> addrBuf[k] != '\0'
  {
    pos := pos0;
    if n > 0 {
      pos := Append(addrBuf, pos, ':');
    }
  }

  method Append(addrBuf: array<char>, pos0: nat, d: char) returns (pos: nat)
    requires pos0 < addrBuf.Length && d != '\0' && forall k :: 0 <= k < pos0 ==> addrBuf[k] != '\0'
    modifies addrBuf
    ensures pos == pos0 + 1 && addrBuf[..pos] == old(addrBuf[..pos0]) + [d]
    ensures forall k :: 0 <= k < pos ==> addrBuf[k] != '\0'
  {
    addrBuf[pos0] := d;
    pos := pos0 + 1;
  }

  /** `sprintf` and `strlen`: the digits of a group behind the text before it, and where they end. */
  method PutHex(addrBuf: array<char>, start: nat, cur: nat, ghost digits: string, ghost text: string)
    returns (pos: nat)
    requires start + |digits| < addrBuf.Length && digits == Hex(cur) && '\0' !in digits && addrBuf[..start] == text
    requires forall k :: 0 <= k < start ==> addrBuf[k] != '\0'
    modifies addrBuf
    ensures pos == start + |digits| && addrBuf[..pos] == text + digits
    ensures forall k :: 0 <= k < pos ==> addrBuf[k] != '\0'
  {
    assert forall k :: 0 <= k < start ==> text[k] == addrBuf[k];
    SprintfX(addrBuf, start, cur);
    NoEarlyEnd(addrBuf[..], start, digits, text);
    pos := StrLen(addrBuf);
    assert addrBuf[..pos] == addrBuf[..start] + addrBuf[start..pos];
  }

  lemma NoEarlyEnd(text: seq<char>, start: nat, digits: string, before: string)
    requires start + |digits| < |text| && text[start..start + |digits|] == digits && text[..start] == before
    requires '\0' !in digits && forall k :: 0 <= k < start ==> before[k] != '\0'
    ensures forall k :: 0 <= k < start + |digits| ==> text[k] != '\0'
  {
    forall k | 0 <= k < start + |digits| ensures text[k] != '\0' {
      if k < start {
        assert text[k] == text[..start][k];
      } else {
        assert text[k] == text[start..start + |digits|][k - start];
      }
    }
  }

  // --------------------------------------------------------------- parsing

  /** The first position of `c` in `s`, or the length. */
  function IndexOf(s: string, c: char): (r: nat)
    ensures r <= |s| && (r < |s| ==> s[r] == c) && forall k :: 0 <= k < r ==> s[k] != c
  {
    if s == "" then 0 else if s[0] == c then 0 else 1 + IndexOf(s[1..], c)
  }

  /** The first position of "::" in `s`, or the length. */
  function IndexOfDouble(s: string): (r: nat)
    ensures r <= |s| && (r < |s| ==> r + 1 < |s| && s[r] == ':' && s[r + 1] == ':')
    ensures forall k :: 0 <= k < r && k + 1 < |s| ==> !(s[k] == ':' && s[k + 1] == ':')
  {
    if |s| < 2 then |s|
    else if s[0] == ':' && s[1] == ':' then 0
    else
      1 + IndexOfDouble(s[1..])
  }

  lemma {:induction false} HexPositive(s: string)
    requires IsHex(s)
    ensures HexNumber(s) >= 0
  {
    if s != "" {
      HexPositive(s[..|s| - 1]);
    }
  }

  /** A group: one to four hexadecimal digits. */
  function ParseGroup(s: string): Option<nat> {
    if 1 <= |s| <= 4 && IsHex(s) then HexPositive(s); Some(HexNumber(s)) else None
  }

  predicate IsDecimal(s: string) {
    forall k :: 0 <= k < |s| ==> '0' <= s[k] <= '9'
  }

  function DecNumber(s: string): int {
    if s == "" then 0 else DecNumber(s[..|s| - 1]) * 10 + GetXValue(s[|s| - 1])
  }

  /** One to three decimal digits that denote a byte. */
  function ParseByte(s: string): Option<Byte> {
    if 1 <= |s| <= 3 && IsDecimal(s) && 0 <= DecNumber(s) < 256 then Some(DecNumber(s)) else None
  }

  /** What is between the separators. */
  function Fields(s: string, c: char): (fs: seq<string>)
    ensures fs != []
    decreases |s|
  {
    var k := IndexOf(s, c);
    if k == |s| then [s] else [s[..k]] + Fields(s[k + 1..], c)
  }

  /** An IPv4 address: four bytes in decimal with dots between them. */
  function ParseDotted(s: string): Option<seq<nat>> {
    var fs := Fields(s, '.');
    if |fs| != 4 then None
    else
      match (ParseByte(fs[0]), ParseByte(fs[1]), ParseByte(fs[2]), ParseByte(fs[3]))
      case (Some(a), Some(b), Some(c), Some(d)) => Some([Pair(a, b), Pair(c, d)])
      case _ => None
  }

  /** Groups; at the end of an address the last field may be an IPv4 address, which is two groups. */
  function ParseFields(fs: seq<string>, atEnd: bool): Option<seq<nat>> {
    if fs == [] then Some([])
    else
      match ParseGroup(fs[0])
      case Some(g) =>
        (match ParseFields(fs[1..], atEnd) case None => None case Some(rest) => Some([g] + rest))
      case None => if atEnd && |fs| == 1 then ParseDotted(fs[0]) else None
  }

  /** Groups with colons between them. */
  function ParseGroups(s: string, atEnd: bool): Option<seq<nat>> {
    ParseFields(Fields(s, ':'), atEnd)
  }

  /** As above, and nothing at all is no groups. */
  function ParseSide(s: string, atEnd: bool): Option<seq<nat>> {
    if s == "" then Some([]) else ParseGroups(s, atEnd)
  }

  function Zeros(n: nat): seq<nat> {
    seq(n, _ => 0)
  }

  /** Both sides of "::", with the zero groups between them. */
  function Filled(left: Option<seq<nat>>, right: Option<seq<nat>>): Option<seq<nat>> {
    if left.Some? && right.Some? && |left.value| + |right.value| <= 7
    then Some(left.value + Zeros(8 - |left.value| - |right.value|) + right.value)
    else None
  }

  /** The eight groups that a text denotes: in full, or with "::" for one or more zero groups. */
  function Parse(s: string): Option<seq<nat>> {
    var k := IndexOfDouble(s);
    if k < |s| then Filled(ParseSide(s[..k], false), ParseSide(s[k + 2..], true))
    else match ParseGroups(s, true) case Some(gs) => (if |gs| == 8 then Some(gs) else None) case None => None
  }

  // ------------------------------------------------------------ round trip

  predicate Double(s: string, k: int) {
    0 <= k && k + 1 < |s| && s[k] == ':' && s[k + 1] == ':'
  }

  /** "::" occurs at most once. */
  ghost predicate OneDoubleAtMost(s: string) {
    forall j, k :: Double(s, j) && Double(s, k) ==> j == k
  }

  /** Text without a double colon, and without a colon at its ends. */
  ghost predicate Plain(s: string) {
    (forall k :: !Double(s, k)) && (s != "" ==> s[0] != ':' && s[|s| - 1] != ':')
  }

  /** A join has no empty group: it does not begin or end with a colon, nor hold two together. */
  lemma {:induction false} JoinPlain(gs: seq<nat>)
    ensures Plain(Join(gs)) && (gs != [] ==> Join(gs) != "")
    decreases |gs|
  {
    if gs != [] {
      HexPlain(gs[0]);
      if |gs| > 1 {
        JoinPlain(gs[1..]);
        PlainColon(Hex(gs[0]), Join(gs[1..]));
      }
    }
  }

  lemma PlainColon(h: string, rest: string)
    requires h != "" && (forall k :: 0 <= k < |h| ==> h[k] != ':') && Plain(rest) && rest != ""
    ensures Plain(h + ":" + rest)
  {
    var s := h + ":" + rest;
    forall k ensures !Double(s, k) {
      if k > |h| {
        assert !Double(rest, k - |h| - 1);
      }
    }
  }

  predicate Without(s: string, c: char) {
    forall k :: 0 <= k < |s| ==> s[k] != c
  }

  lemma FieldsFirst(s: string, c: char, t: string)
    requires Without(s, c)
    ensures Fields(s + [c] + t, c) == [s] + Fields(t, c)
  {
    var w := s + [c] + t;
    assert w[|s|] == c;
    assert forall k :: 0 <= k < |s| ==> w[k] == s[k];
    assert IndexOf(w, c) == |s|;
    assert w[..|s|] == s && w[|s| + 1..] == t;
  }

  lemma FieldsLast(s: string, c: char)
    requires Without(s, c)
    ensures Fields(s, c) == [s]
  {
  }

  lemma ParseHex(g: nat)
    requires g < 0x1_0000
    ensures ParseGroup(Hex(g)) == Some(g)
  {
    HexPlain(g);
    HexLength(g, 4);
  }

  function HexFields(gs: seq<nat>): (fs: seq<string>)
    ensures |fs| == |gs|
  {
    if gs == [] then [] else [Hex(gs[0])] + HexFields(gs[1..])
  }

  lemma {:induction false} FieldsOfJoin(gs: seq<nat>)
    requires gs != []
    ensures Fields(Join(gs), ':') == HexFields(gs)
    decreases |gs|
  {
    HexPlain(gs[0]);
    if |gs| == 1 {
      FieldsLast(Hex(gs[0]), ':');
    } else {
      FieldsFirst(Hex(gs[0]), ':', Join(gs[1..]));
      FieldsOfJoin(gs[1..]);
    }
  }

  lemma ParseFieldsStep(s: string, rest: seq<string>, atEnd: bool)
    requires ParseGroup(s).Some? && ParseFields(rest, atEnd).Some?
    ensures ParseFields([s] + rest, atEnd) == Some([ParseGroup(s).value] + ParseFields(rest, atEnd).value)
  {
    assert ([s] + rest)[1..] == rest;
  }

  lemma {:induction false} ParseHexFields(gs: seq<nat>, atEnd: bool)
    requires GroupsOk(gs)
    ensures ParseFields(HexFields(gs), atEnd) == Some(gs)
    decreases |gs|
  {
    if gs != [] {
      ParseHex(gs[0]);
      ParseHexFields(gs[1..], atEnd);
      ParseFieldsStep(Hex(gs[0]), HexFields(gs[1..]), atEnd);
      assert gs == [gs[0]] + gs[1..];
    }
  }

  lemma ParseJoin(gs: seq<nat>, atEnd: bool)
    requires gs != [] && GroupsOk(gs)
    ensures ParseGroups(Join(gs), atEnd) == Some(gs)
  {
    FieldsOfJoin(gs);
    ParseHexFields(gs, atEnd);
  }

  lemma ParseSideJoin(gs: seq<nat>, atEnd: bool)
    requires GroupsOk(gs)
    ensures ParseSide(Join(gs), atEnd) == Some(gs)
  {
    JoinPlain(gs);
    if gs != [] {
      ParseJoin(gs, atEnd);
    }
  }

  /** The compressed form has its one "::" where the groups were left out. */
  lemma OneDouble(left: seq<nat>, right: seq<nat>)
    ensures var s := Join(left) + "::" + Join(right); IndexOfDouble(s) == |Join(left)| && OneDoubleAtMost(s)
  {
    JoinPlain(left);
    JoinPlain(right);
    DoubleBetween(Join(left), Join(right));
  }

  lemma DoubleAt(l: string, r: string, k: int)
    requires Plain(l) && Plain(r)
    ensures Double(l + "::" + r, k) <==> k == |l|
  {
    if k < |l| {
      assert !Double(l, k);
    } else if k > |l| + 1 {
      assert !Double(r, k - |l| - 2);
    }
  }

  lemma FirstDouble(s: string, p: nat)
    requires forall k :: Double(s, k) <==> k == p
    ensures IndexOfDouble(s) == p
  {
    assert Double(s, p);
    var i := IndexOfDouble(s);
    assert i < |s| ==> Double(s, i);
  }

  lemma DoubleBetween(l: string, r: string)
    requires Plain(l) && Plain(r)
    ensures IndexOfDouble(l + "::" + r) == |l| && OneDoubleAtMost(l + "::" + r)
  {
    var s := l + "::" + r;
    forall k ensures Double(s, k) <==> k == |l| {
      DoubleAt(l, r, k);
    }
    FirstDouble(s, |l|);
  }

  lemma ParseSides(s: string, l: string, r: string, left: seq<nat>, right: seq<nat>)
    requires s == l + "::" + r && IndexOfDouble(s) == |l|
    requires ParseSide(l, false) == Some(left) && ParseSide(r, true) == Some(right) && |left| + |right| <= 7
    ensures Parse(s) == Some(left + Zeros(8 - |left| - |right|) + right)
  {
    Sides(s, l, r);
    ParseAt(s, |l|, l, r);
  }

  lemma Sides(s: string, l: string, r: string)
    requires s == l + "::" + r
    ensures |l| + 2 <= |s| && s[..|l|] == l && s[|l| + 2..] == r
  {
  }

  lemma ParseAt(s: string, k: nat, l: string, r: string)
    requires k + 2 <= |s| && IndexOfDouble(s) == k && s[..k] == l && s[k + 2..] == r
    ensures Parse(s) == Filled(ParseSide(l, false), ParseSide(r, true))
  {
  }

  /** Reading the compressed form puts the zero groups back. */
  lemma ParseCompressed(left: seq<nat>, right: seq<nat>)
    requires GroupsOk(left) && GroupsOk(right) && |left| + |right| <= 7
    ensures Parse(Join(left) + "::" + Join(right)) == Some(left + Zeros(8 - |left| - |right|) + right)
  {
    OneDouble(left, right);
    ParseSideJoin(left, false);
    ParseSideJoin(right, true);
    ParseSides(Join(left) + "::" + Join(right), Join(left), Join(right), left, right);
  }

  /** Reading the full form. */
  lemma ParseFull(gs: seq<nat>)
    requires |gs| == 8 && GroupsOk(gs)
    ensures Parse(Join(gs)) == Some(gs)
  {
    JoinPlain(gs);
    ParseJoin(gs, true);
    var k := IndexOfDouble(Join(gs));
    assert k < |Join(gs)| ==> Double(Join(gs), k);
  }

  /** The groups from `i` on, each after a colon. */
  function Tail(gs: seq<nat>): string {
    if gs == [] then "" else ":" + Join(gs)
  }

  lemma {:induction false} JoinAppend(gs: seq<nat>, g: nat)
    ensures Join(gs + [g]) == (if gs == [] then "" else Join(gs) + ":") + Hex(g)
    decreases |gs|
  {
    if gs == [] {
      assert gs + [g] == [g];
    } else {
      assert (gs + [g])[1..] == gs[1..] + [g];
      JoinAppend(gs[1..], g);
      assert Join(gs + [g]) == Hex(gs[0]) + ":" + Join(gs[1..] + [g]);
      if |gs| == 1 {
        assert gs[1..] == [];
      }
    }
  }

  lemma TailStep(gs: seq<nat>, i: nat)
    requires i < |gs|
    ensures Tail(gs[i..]) == ":" + Hex(gs[i]) + Tail(gs[i + 1..])
  {
    assert gs[i..][1..] == gs[i + 1..];
    assert gs[i..][0] == gs[i];
    if i + 1 == |gs| {
      assert gs[i + 1..] == [];
    } else {
      Assoc(":", Hex(gs[i]), ":" + Join(gs[i + 1..]));
      Assoc(Hex(gs[i]), ":", Join(gs[i + 1..]));
    }
  }

  lemma JoinStep(gs: seq<nat>, i: nat)
    requires i < |gs|
    ensures Join(gs[..i + 1]) == (if i == 0 then "" else Join(gs[..i]) + ":") + Hex(gs[i])
  {
    JoinAppend(gs[..i], gs[i]);
    assert gs[..i] + [gs[i]] == gs[..i + 1];
  }

  lemma Assoc(a: string, b: string, c: string)
    ensures (a + b) + c == a + (b + c)
  {
  }

  /** Once a run was left out, the rest is printed in full. */
  lemma {:induction false} PrintAfter(gs: seq<nat>, i: nat)
    requires |gs| == 8 && 1 <= i <= 8
    ensures PrintFrom(gs, i, true, false) == Tail(gs[i..])
    decreases 8 - i
  {
    if i < 8 {
      PrintAfter(gs, i + 1);
      TailStep(gs, i);
    }
  }

  /** Inside the run that is left out, nothing is printed up to its end. */
  lemma {:induction false} PrintInside(gs: seq<nat>, i: nat)
    requires |gs| == 8 && 1 <= i <= 7
    ensures PrintFrom(gs, i, true, true) == Tail(gs[RunEnd(gs, i)..])
    decreases 8 - i
  {
    if i < 7 && gs[i] == 0 {
      PrintInside(gs, i + 1);
    } else {
      if i < 7 {
        PrintAfter(gs, i + 1);
      }
      TailStep(gs, i);
    }
  }

  /** With the groups before `i` in full, the first run of zero groups from `i` on is left out. */
  lemma {:induction false} PrintShape(gs: seq<nat>, i: nat)
    requires |gs| == 8 && i <= 7
    ensures var z := FirstZero(gs, i);
      Join(gs[..i]) + PrintFrom(gs, i, false, false) ==
        if z == 7 then Join(gs) else Join(gs[..z]) + "::" + Join(gs[RunEnd(gs, z + 1)..])
    decreases 8 - i
  {
    if i < 7 && gs[i] == 0 {
      PrintRun(gs, i, RunEnd(gs, i + 1));
    } else {
      PrintGroup(gs, i);
      if i < 7 {
        PrintShape(gs, i + 1);
      } else {
        PrintDone(gs);
      }
    }
  }

  lemma PrintRun(gs: seq<nat>, i: nat, e: nat)
    requires |gs| == 8 && i < 7 && gs[i] == 0 && e == RunEnd(gs, i + 1)
    ensures Join(gs[..i]) + PrintFrom(gs, i, false, false) == Join(gs[..i]) + "::" + Join(gs[e..])
  {
    PrintInside(gs, i + 1);
    DoubleColon(Join(gs[..i]), Join(gs[e..]));
  }

  lemma PrintDone(gs: seq<nat>)
    requires |gs| == 8
    ensures Join(gs[..8]) + PrintFrom(gs, 8, false, false) == Join(gs)
  {
    assert gs[..8] == gs;
  }

  /** What is printed: the first run of zero groups as "::", unless it is the last group alone, and every other
      group. */
  lemma PrintedIs(a: Address)
    ensures !IsMapped(a) ==> var gs := Groups(a); var z := FirstZero(gs, 0);
      Printed(a) == if z == 7 then Join(gs) else Join(gs[..z]) + "::" + Join(gs[RunEnd(gs, z + 1)..])
  {
    PrintShape(Groups(a), 0);
    Nothing(Groups(a), PrintFrom(Groups(a), 0, false, false));
  }

  lemma DoubleColon(l: string, r: string)
    ensures l + (":" + (":" + r)) == l + "::" + r
  {
  }

  lemma PrintGroup(gs: seq<nat>, i: nat)
    requires |gs| == 8 && i < 8 && (gs[i] != 0 || i == 7)
    ensures Join(gs[..i]) + PrintFrom(gs, i, false, false) == Join(gs[..i + 1]) + PrintFrom(gs, i + 1, false, false)
  {
    JoinStep(gs, i);
    PrintedNext(gs, i, Join(gs[..i]), false, false);
    if i == 0 {
      assert gs[..0] == [];
      assert "" + Field(0, gs[0]) == Hex(gs[0]);
    } else {
      Assoc(Join(gs[..i]), ":", Hex(gs[i]));
    }
  }

  /** Whatever the groups, the printed text reads back as those groups, and "::" occurs at most once. */
  lemma GroupsRoundTrip(gs: seq<nat>)
    requires |gs| == 8 && GroupsOk(gs)
    ensures Parse(PrintFrom(gs, 0, false, false)) == Some(gs)
    ensures OneDoubleAtMost(PrintFrom(gs, 0, false, false))
  {
    var z, s := FirstZero(gs, 0), PrintFrom(gs, 0, false, false);
    PrintShape(gs, 0);
    Nothing(gs, s);
    if z < 7 {
      ReadsCompressed(gs, z, RunEnd(gs, z + 1), s);
    } else {
      ReadsFull(gs, s);
    }
  }

  lemma ReadsCompressed(gs: seq<nat>, z: nat, e: nat, s: string)
    requires |gs| == 8 && GroupsOk(gs) && z < e <= 7 && forall k :: z <= k < e ==> gs[k] == 0
    requires s == Join(gs[..z]) + "::" + Join(gs[e..])
    ensures Parse(s) == Some(gs) && OneDoubleAtMost(s)
  {
    ZeroRun(gs, z, e);
    CompressedCase(gs, gs[..z], gs[e..], s);
  }

  lemma ReadsFull(gs: seq<nat>, s: string)
    requires |gs| == 8 && GroupsOk(gs) && s == Join(gs)
    ensures Parse(s) == Some(gs) && OneDoubleAtMost(s)
  {
    ParseFull(gs);
    JoinPlain(gs);
  }

  lemma Nothing(gs: seq<nat>, s: string)
    ensures Join(gs[..0]) + s == s
  {
    assert gs[..0] == [];
  }

  lemma CompressedCase(gs: seq<nat>, left: seq<nat>, right: seq<nat>, s: string)
    requires GroupsOk(left) && GroupsOk(right) && |left| + |right| <= 7
    requires s == Join(left) + "::" + Join(right) && left + Zeros(8 - |left| - |right|) + right == gs
    ensures Parse(s) == Some(gs) && OneDoubleAtMost(s)
  {
    ParseCompressed(left, right);
    OneDouble(left, right);
  }

  lemma ZeroRun(gs: seq<nat>, z: nat, e: nat)
    requires z <= e <= |gs| && forall k :: z <= k < e ==> gs[k] == 0
    ensures gs[..z] + Zeros(e - z) + gs[e..] == gs
  {
  }

  // ------------------------------------------------------ the mapped branch

  lemma {:induction false} DecPlain(v: nat)
    ensures IsDecimal(Dec(v)) && DecNumber(Dec(v)) == v
    decreases v
  {
    DigitPlain(v % 10);
    if v >= 10 {
      DecPlain(v / 10);
      assert Dec(v)[..|Dec(v)| - 1] == Dec(v / 10);
    } else {
      assert Dec(v)[..0] == "";
    }
  }

  lemma ParseDec(b: Byte)
    ensures ParseByte(Dec(b)) == Some(b)
    ensures Without(Dec(b), '.') && Without(Dec(b), ':')
  {
    DecPlain(b);
    assert |Dec(b)| <= 3 by {
      assert b < 10 || |Dec(b)| == |Dec(b / 10)| + 1;
      assert b / 10 < 10 || |Dec(b / 10)| == |Dec(b / 10 / 10)| + 1;
    }
  }

  /** Four fields with dots between them. */
  lemma FourFields(s: string, t: string, u: string, v: string)
    requires Without(s, '.') && Without(t, '.') && Without(u, '.') && Without(v, '.')
    ensures Fields(s + "." + (t + "." + (u + "." + v)), '.') == [s, t, u, v]
  {
    FieldsLast(v, '.');
    FieldsFirst(u, '.', v);
    FieldsFirst(t, '.', u + "." + v);
    FieldsFirst(s, '.', t + "." + (u + "." + v));
  }

  lemma ParseDottedAddress(a: Address)
    ensures ParseDotted(Dotted(a)) == Some([Pair(a[12], a[13]), Pair(a[14], a[15])])
  {
    ParseDec(a[12]);
    ParseDec(a[13]);
    ParseDec(a[14]);
    ParseDec(a[15]);
    FourFields(Dec(a[12]), Dec(a[13]), Dec(a[14]), Dec(a[15]));
  }

  lemma JoinedWithout(s: string, t: string)
    requires Without(s, ':') && Without(t, ':')
    ensures Without(s + "." + t, ':') && (s + "." + t)[|s|] == '.'
  {
  }

  lemma DottedPlain(a: Address)
    ensures Without(Dotted(a), ':') && !Without(Dotted(a), '.')
  {
    ParseDec(a[12]);
    ParseDec(a[13]);
    ParseDec(a[14]);
    ParseDec(a[15]);
    var s, t, u, v := Dec(a[12]), Dec(a[13]), Dec(a[14]), Dec(a[15]);
    JoinedWithout(u, v);
    JoinedWithout(t, u + "." + v);
    JoinedWithout(s, t + "." + (u + "." + v));
    assert Dotted(a)[|s|] == '.';
  }

  lemma DotIsNoGroup(d: string)
    requires !Without(d, '.')
    ensures ParseGroup(d) == None
  {
    var k :| 0 <= k < |d| && d[k] == '.';
    assert GetXValue(d[k]) < 0;
  }

  lemma FourF()
    ensures Hex(0xFFFF) == "FFFF"
  {
    assert Hex(0xF) == "F";
    assert Hex(0xFF) == "FF";
    assert Hex(0xFFF) == "FFF";
  }

  lemma MappedSide(f: string, d: string)
    requires f == Hex(0xFFFF) && Without(d, ':') && !Without(d, '.') && ParseDotted(d).Some?
    ensures ParseGroups(f + ":" + d, true) == Some([0xFFFF] + ParseDotted(d).value)
  {
    HexPlain(0xFFFF);
    FieldsFirst(f, ':', d);
    FieldsLast(d, ':');
    MappedFields(f, d);
  }

  lemma MappedFields(f: string, d: string)
    requires f == Hex(0xFFFF) && !Without(d, '.') && ParseDotted(d).Some?
    ensures ParseFields([f] + [d], true) == Some([0xFFFF] + ParseDotted(d).value)
  {
    ParseHex(0xFFFF);
    DotIsNoGroup(d);
    assert ParseFields([d], true) == ParseDotted(d);
    assert ([f] + [d])[1..] == [d];
  }

  /** The mapped form reads back as the mapped address. */
  lemma MappedRoundTrip(a: Address)
    requires IsMapped(a)
    ensures Parse(Printed(a)) == Some(Groups(a))
  {
    var d := Dotted(a);
    DottedPlain(a);
    ParseDottedAddress(a);
    FourF();
    MappedSide("FFFF", d);
    MappedText(Printed(a), d);
    ParseSides(Printed(a), "", "FFFF" + ":" + d, [], [0xFFFF] + ParseDotted(d).value);
    MappedGroups(a);
  }

  lemma MappedText(s: string, d: string)
    requires s == "::FFFF:" + d
    ensures s == "" + "::" + ("FFFF" + ":" + d) && IndexOfDouble(s) == 0 && "FFFF" + ":" + d != ""
  {
  }

  lemma MappedGroups(a: Address)
    requires IsMapped(a)
    ensures Groups(a) == [] + Zeros(5) + ([0xFFFF] + [Pair(a[12], a[13]), Pair(a[14], a[15])])
  {
    forall i | 0 <= i < 5 ensures Group(a, i) == 0 {
    }
  }

  /** For every address, a reader of section 2.2 of RFC 4291 recovers the address from the printed text. */
  lemma RoundTrip(a: Address)
    ensures Parse(Printed(a)) == Some(Groups(a))
  {
    if IsMapped(a) {
      MappedRoundTrip(a);
    } else {
      GroupsRoundTrip(Groups(a));
    }
  }

  /** Different addresses print differently. */
  lemma PrintedInjective(a: Address, b: Address)
    requires Printed(a) == Printed(b)
    ensures a == b
  {
    RoundTrip(a);
    RoundTrip(b);
    assert Groups(a) == Groups(b);
    forall i | 0 <= i < 8 ensures a[2 * i] == b[2 * i] && a[2 * i + 1] == b[2 * i + 1] {
      assert Groups(a)[i] == Group(a, i) && Groups(b)[i] == Group(b, i);
    }
    forall j | 0 <= j < 16 ensures a[j] == b[j] {
      assert j == 2 * (j / 2) || j == 2 * (j / 2) + 1;
    }
  }
}
