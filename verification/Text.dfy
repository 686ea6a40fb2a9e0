/** The string helpers of string_.cpp, and the MAC address parser of net_util.cpp that is built on them. */
module Text {
  import opened RingTypes

  // ------------------------------------------------------------- splitting

  predicate AllDelims(s: string, delim: string) {
    forall i :: 0 <= i < |s| ==> s[i] in delim
  }

  predicate NoDelims(s: string, delim: string) {
    forall i :: 0 <= i < |s| ==> s[i] !in delim
  }

  /** `find_first_of`: the first position from `pos` on that holds a delimiter; the length if there is none. */
  function FindFirstOf(s: string, delim: string, pos: nat): (r: nat)
    requires pos <= |s|
    ensures pos <= r <= |s|
    ensures r < |s| ==> s[r] in delim
    ensures forall i :: pos <= i < r ==> s[i] !in delim
    decreases |s| - pos
  {
    if pos == |s| || s[pos] in delim then pos else FindFirstOf(s, delim, pos + 1)
  }

  /** The tokens of `s` from `pos` on: the longest stretches without a delimiter. */
  function Tokens(s: string, delim: string, pos: nat): seq<string>
    requires pos <= |s|
    decreases |s| - pos
  {
    var found := FindFirstOf(s, delim, pos);
    var token := if found != pos then [s[pos..found]] else [];
    if found == |s| then token else token + Tokens(s, delim, found + 1)
  }

  /** `StrSplit`: appends the tokens to the vector. */
  method StrSplit(src: string, delim: string, vec: seq<string>) returns (count: nat, vec': seq<string>)
    ensures vec' == vec + Tokens(src, delim, 0) && count == |vec'|
  {
    vec' := vec;
    var pos := 0;
    var found := FindFirstOf(src, delim, pos);
    while found != |src|
      invariant pos <= |src| && found == FindFirstOf(src, delim, pos)
      invariant vec' + Tokens(src, delim, pos) == vec + Tokens(src, delim, 0)
      decreases |src| - pos
    {
      if found != pos {
        vec' := vec' + [src[pos..found]];
      }
      pos := found + 1;
      found := FindFirstOf(src, delim, pos);
    }
    assert src[pos..] == src[pos..found];
    if pos != |src| {
      vec' := vec' + [src[pos..]];
    }
    count := |vec'|;
  }

  /** The overload on a C string: NULL is refused. */
  method StrSplitC(src: Option<string>, delim: string, vec: seq<string>) returns (count: int, vec': seq<string>)
    ensures src.None? ==> count == -1 && vec' == vec
    ensures src.Some? ==> vec' == vec + Tokens(src.value, delim, 0) && count == |vec'|
  {
    if src.None? {
      return -1, vec;
    }
    count, vec' := StrSplit(src.value, delim, vec);
  }

  /** A token and the delimiters after it. */
  datatype Piece = Piece(token: string, run: string)

  /** Delimiters, then every token with the delimiters after it. */
  function Weave(lead: string, pieces: seq<Piece>): string
    decreases |pieces|
  {
    if pieces == [] then lead else lead + pieces[0].token + Weave(pieces[0].run, pieces[1..])
  }

  /** Non-empty tokens without delimiters, kept apart by non-empty runs of delimiters; at the two ends
      the runs may be empty. */
  predicate WellWoven(lead: string, pieces: seq<Piece>, delim: string) {
    && AllDelims(lead, delim)
    && (forall i :: 0 <= i < |pieces| ==>
          pieces[i].token != "" && NoDelims(pieces[i].token, delim) && AllDelims(pieces[i].run, delim))
    && (forall i :: 0 <= i < |pieces| - 1 ==> pieces[i].run != "")
  }

  function TokensOf(pieces: seq<Piece>): seq<string> {
    seq(|pieces|, i requires 0 <= i < |pieces| => pieces[i].token)
  }

  /** Tokens do not depend on what is before `pos`. */
  lemma {:induction false} TokensShift(pre: string, s: string, delim: string, pos: nat)
    requires pos <= |s|
    ensures Tokens(pre + s, delim, |pre| + pos) == Tokens(s, delim, pos)
    decreases |s| - pos
  {
    FindShift(pre, s, delim, pos);
    var found := FindFirstOf(s, delim, pos);
    SameSlice(pre, s, pos, found);
    if found < |s| {
      TokensShift(pre, s, delim, found + 1);
    }
  }

  lemma SameSlice(pre: string, s: string, from: nat, to: nat)
    requires from <= to <= |s|
    ensures (pre + s)[|pre| + from..|pre| + to] == s[from..to]
  {
  }

  lemma {:induction false} FindShift(pre: string, s: string, delim: string, pos: nat)
    requires pos <= |s|
    ensures FindFirstOf(pre + s, delim, |pre| + pos) == |pre| + FindFirstOf(s, delim, pos)
    decreases |s| - pos
  {
    if pos < |s| && s[pos] !in delim {
      FindShift(pre, s, delim, pos + 1);
    }
  }

  /** Leading delimiters are skipped. */
  lemma {:induction false} SkipLead(lead: string, s: string, delim: string)
    requires AllDelims(lead, delim)
    ensures Tokens(lead + s, delim, 0) == Tokens(s, delim, 0)
  {
    if lead == "" {
      assert lead + s == s;
    } else {
      var t := lead + s;
      assert t == [lead[0]] + (lead[1..] + s);
      assert FindFirstOf(t, delim, 0) == 0;
      TokensShift([lead[0]], lead[1..] + s, delim, 0);
      SkipLead(lead[1..], s, delim);
    }
  }

  /** `find_first_of` is the only position with its contract. */
  lemma FindUnique(s: string, delim: string, pos: nat, r: nat)
    requires pos <= r <= |s| && (r < |s| ==> s[r] in delim) && forall i :: pos <= i < r ==> s[i] !in delim
    ensures FindFirstOf(s, delim, pos) == r
  {
    var f := FindFirstOf(s, delim, pos);
  }

  /** A token in front of a delimiter, or at the end, is taken whole. */
  lemma TakeToken(token: string, s: string, delim: string)
    requires token != "" && NoDelims(token, delim) && (s != "" ==> s[0] in delim)
    ensures Tokens(token + s, delim, 0) == [token] + Tokens(s, delim, 0)
  {
    TokenFound(token, s, delim);
    if s != "" {
      RestAfter(token, s, delim);
    } else {
      assert Tokens(s, delim, 0) == [];
    }
  }

  lemma TokenFound(token: string, s: string, delim: string)
    requires token != "" && NoDelims(token, delim) && (s != "" ==> s[0] in delim)
    ensures FindFirstOf(token + s, delim, 0) == |token| && (token + s)[0..|token|] == token
  {
    FindUnique(token + s, delim, 0, |token|);
  }

  lemma RestAfter(token: string, s: string, delim: string)
    requires s != "" && s[0] in delim
    ensures Tokens(token + s, delim, |token| + 1) == Tokens(s, delim, 0)
  {
    var head := [s[0]];
    assert s == head + s[1..];
    assert token + s == (token + head) + s[1..];
    TokensShift(token + head, s[1..], delim, 0);
    SkipLead(head, s[1..], delim);
  }

  /** A weave without leading delimiters starts with its first token. */
  lemma WeaveStart(lead: string, pieces: seq<Piece>, delim: string)
    requires WellWoven(lead, pieces, delim)
    ensures lead == "" && pieces != [] ==> Weave(lead, pieces) != "" && Weave(lead, pieces)[0] !in delim
    ensures lead != "" ==> Weave(lead, pieces) != "" && Weave(lead, pieces)[0] in delim
  {
    if pieces != [] {
      StartOf(lead, pieces[0].token, Weave(pieces[0].run, pieces[1..]));
    }
  }

  lemma StartOf(lead: string, token: string, rest: string)
    requires token != ""
    ensures var s := lead + token + rest; s != "" && s[0] == if lead == "" then token[0] else lead[0]
  {
  }

  lemma WovenTail(lead: string, pieces: seq<Piece>, delim: string)
    requires WellWoven(lead, pieces, delim) && pieces != []
    ensures WellWoven(pieces[0].run, pieces[1..], delim)
    ensures pieces[0].run == "" ==> pieces[1..] == []
  {
    forall i | 0 <= i < |pieces[1..]| - 1 ensures pieces[1..][i].run != "" {
      assert pieces[1..][i] == pieces[i + 1];
    }
  }

  /** Splitting inverts joining: whatever runs of delimiters the tokens were joined with. */
  lemma {:induction false} SplitInvertsWeave(lead: string, pieces: seq<Piece>, delim: string)
    requires WellWoven(lead, pieces, delim)
    ensures Tokens(Weave(lead, pieces), delim, 0) == TokensOf(pieces)
    decreases |pieces|
  {
    if pieces == [] {
      SkipLead(lead, "", delim);
      assert lead + "" == lead;
    } else {
      var token, rest := pieces[0].token, Weave(pieces[0].run, pieces[1..]);
      WovenTail(lead, pieces, delim);
      SplitInvertsWeave(pieces[0].run, pieces[1..], delim);
      WeaveStart(pieces[0].run, pieces[1..], delim);
      assert Weave(lead, pieces) == lead + (token + rest);
      SplitFirst(lead, token, rest, delim);
      TokensOfFirst(pieces);
    }
  }

  lemma SplitFirst(lead: string, token: string, rest: string, delim: string)
    requires AllDelims(lead, delim) && token != "" && NoDelims(token, delim) && (rest != "" ==> rest[0] in delim)
    ensures Tokens(lead + (token + rest), delim, 0) == [token] + Tokens(rest, delim, 0)
  {
    TakeToken(token, rest, delim);
    SkipLead(lead, token + rest, delim);
  }

  lemma TokensOfFirst(pieces: seq<Piece>)
    requires pieces != []
    ensures TokensOf(pieces) == [pieces[0].token] + TokensOf(pieces[1..])
  {
  }

  /** ... and every string is such a join of the tokens it splits into. */
  lemma {:induction false} SplitIsWeave(s: string, delim: string) returns (lead: string, pieces: seq<Piece>)
    ensures WellWoven(lead, pieces, delim) && Weave(lead, pieces) == s
    ensures TokensOf(pieces) == Tokens(s, delim, 0)
    decreases |s|
  {
    if s == "" {
      lead, pieces := "", [];
    } else if s[0] in delim {
      lead, pieces := SplitIsWeave(s[1..], delim);
      LeadDelim(s, delim, lead, pieces);
      lead := [s[0]] + lead;
    } else {
      var f := FindFirstOf(s, delim, 0);
      lead, pieces := SplitIsWeave(s[f..], delim);
      LeadToken(s, f, delim, lead, pieces);
      lead, pieces := "", [Piece(s[..f], lead)] + pieces;
    }
    SplitInvertsWeave(lead, pieces, delim);
  }

  lemma LeadDelim(s: string, delim: string, lead: string, pieces: seq<Piece>)
    requires s != "" && s[0] in delim
    requires WellWoven(lead, pieces, delim) && Weave(lead, pieces) == s[1..]
    ensures WellWoven([s[0]] + lead, pieces, delim) && Weave([s[0]] + lead, pieces) == s
  {
    assert s == [s[0]] + s[1..];
    if pieces != [] {
      var rest := Weave(pieces[0].run, pieces[1..]);
      assert [s[0]] + lead + pieces[0].token + rest == [s[0]] + (lead + pieces[0].token + rest);
    }
  }

  lemma LeadToken(s: string, f: nat, delim: string, lead: string, pieces: seq<Piece>)
    requires s != "" && s[0] !in delim && f == FindFirstOf(s, delim, 0)
    requires WellWoven(lead, pieces, delim) && Weave(lead, pieces) == s[f..]
    ensures WellWoven("", [Piece(s[..f], lead)] + pieces, delim)
    ensures Weave("", [Piece(s[..f], lead)] + pieces) == s
  {
    var all := [Piece(s[..f], lead)] + pieces;
    WeaveStart(lead, pieces, delim);
    assert all[1..] == pieces;
    assert s == s[..f] + s[f..];
    assert Weave("", all) == "" + s[..f] + Weave(lead, pieces);
  }

  // ------------------------------------------------------------ hexadecimal

  type Byte = b: int | 0 <= b < 256

  const HEX := "0123456789abcdef"
  const HEX_UPPER := "0123456789ABCDEF"

  function Digit(v: nat, upperCase: bool): char
    requires v < 16
  {
    if upperCase then HEX_UPPER[v] else HEX[v]
  }

  /** Digits up to nine, and then letters of the case asked for. */
  lemma DigitIs(v: nat, upperCase: bool)
    requires v < 16
    ensures Digit(v, upperCase) as int ==
      if v < 10 then '0' as int + v else (if upperCase then 'A' else 'a') as int + v - 10
  {
    var d := Digit(v, upperCase);
    if v < 10 {
      assert d == ['0', '1', '2', '3', '4', '5', '6', '7', '8', '9'][v];
    } else if upperCase {
      assert d == ['A', 'B', 'C', 'D', 'E', 'F'][v - 10];
    } else {
      assert d == ['a', 'b', 'c', 'd', 'e', 'f'][v - 10];
    }
  }

  /** The two digits of a byte. */
  function HexOf(b: Byte, upperCase: bool): string {
    [Digit(b / 16, upperCase), Digit(b % 16, upperCase)]
  }

  /** `Bin2Str`: writes two digits for every byte, and a terminator. */
  method Bin2Str(p: seq<Byte>, to: array<char>, upperCase: bool)
    requires to.Length >= 2 * |p| + 1
    modifies to
    ensures forall i :: 0 <= i < |p| ==> to[2 * i..2 * i + 2] == HexOf(p[i], upperCase)
    ensures to[2 * |p|] == '\0'
    ensures forall i :: 2 * |p| < i < to.Length ==> to[i] == old(to[i])
  {
    var k := 0;
    for n := 0 to |p|
      invariant k == 2 * n
      invariant forall i :: 0 <= i < n ==>
        to[2 * i] == HexOf(p[i], upperCase)[0] && to[2 * i + 1] == HexOf(p[i], upperCase)[1]
      invariant forall i :: 2 * |p| < i < to.Length ==> to[i] == old(to[i])
    {
      to[k] := Digit(p[n] / 16, upperCase);
      to[k + 1] := Digit(p[n] % 16, upperCase);
      k := k + 2;
    }
    to[k] := '\0';
  }

  /** `GetXValue`. */
  function GetXValue(x: char): int {
    if x == 'F' || x == 'f' then 15
    else if x == 'E' || x == 'e' then 14
    else if x == 'D' || x == 'd' then 13
    else if x == 'C' || x == 'c' then 12
    else if x == 'B' || x == 'b' then 11
    else if x == 'A' || x == 'a' then 10
    else if '0' <= x <= '9' then x as int - '0' as int
    else -1
  }

  lemma DigitValue(v: nat, upperCase: bool)
    requires v < 16
    ensures GetXValue(Digit(v, upperCase)) == v
  {
    DigitIs(v, upperCase);
  }

  /** What `AtoX` adds up, in a byte that wraps. */
  function Accumulated(s: string): Byte {
    if s == "" then 0 else (Accumulated(s[..|s| - 1]) * 16 + GetXValue(s[|s| - 1])) % 256
  }

  /** `AtoX`: the value of at most two digits; 0 for NULL and for longer strings. */
  method AtoX(xcode: Option<string>) returns (value: Byte)
    ensures value == AtoXValue(xcode)
    ensures xcode.None? || |xcode.value| > 2 ==> value == 0
  {
    if xcode.None? {
      return 0;
    }
    var s := xcode.value;
    if |s| > 2 {
      return 0;
    }
    value := 0;
    for i := 0 to |s|
      invariant value == Accumulated(s[..i])
    {
      AccumulateOne(s, i);
      value := ShiftAdd(value, GetXValue(s[i]));
    }
    assert s[..|s|] == s;
  }

  /** `value <<= 4; value += x;` on a byte. */
  function ShiftAdd(value: Byte, x: int): (r: Byte)
    ensures r == (value * 16 + x) % 256
  {
    assert ((value * 16) % 256 + x) % 256 == (value * 16 + x) % 256;
    ((value * 16) % 256 + x) % 256
  }

  lemma AccumulateOne(s: string, i: nat)
    requires i < |s|
    ensures Accumulated(s[..i + 1]) == (Accumulated(s[..i]) * 16 + GetXValue(s[i])) % 256
  {
    assert s[..i + 1][..i] == s[..i];
  }

  function AtoXValue(xcode: Option<string>): Byte {
    if xcode.None? || |xcode.value| > 2 then 0 else Accumulated(xcode.value)
  }

  /** Reading back the digits of a byte gives the byte, in either case. */
  lemma HexRoundTrip(b: Byte, upperCase: bool)
    ensures AtoXValue(Some(HexOf(b, upperCase))) == b
  {
    DigitValue(b / 16, upperCase);
    DigitValue(b % 16, upperCase);
    TwoDigits(HexOf(b, upperCase), b / 16, b % 16);
  }

  lemma TwoDigits(s: string, high: nat, low: nat)
    requires |s| == 2 && GetXValue(s[0]) == high < 16 && GetXValue(s[1]) == low < 16
    ensures Accumulated(s) == high * 16 + low
  {
    var first := s[..1];
    assert first[..0] == "" && first[0] == s[0];
    assert Accumulated(first) == (0 * 16 + high) % 256;
  }

  predicate IsHex(s: string) {
    forall i :: 0 <= i < |s| ==> GetXValue(s[i]) >= 0
  }

  /** The number that a string of hexadecimal digits denotes. */
  function HexNumber(s: string): int {
    if s == "" then 0 else HexNumber(s[..|s| - 1]) * 16 + GetXValue(s[|s| - 1])
  }

  /** On at most two characters the result is the number they denote exactly when they are digits, or
      the first one is and is at least 1 with a foreign character after it, which counts as -1. */
  lemma AtoXExactIff(s: string)
    requires |s| <= 2
    ensures AtoXValue(Some(s)) == HexNumber(s) <==>
      IsHex(s) || (|s| == 2 && GetXValue(s[0]) >= 1 && GetXValue(s[1]) < 0)
  {
    if |s| == 1 {
      assert s[..0] == "";
    } else if |s| == 2 {
      assert s[..1][..0] == "" && s[..1][0] == s[0];
      assert Accumulated(s[..1]) == GetXValue(s[0]) % 256;
      assert HexNumber(s[..1]) == GetXValue(s[0]);
      assert HexNumber(s) == GetXValue(s[0]) * 16 + GetXValue(s[1]);
      assert IsHex(s) <==> GetXValue(s[0]) >= 0 && GetXValue(s[1]) >= 0;
    }
  }

  // ----------------------------------------------------------- MAC address

  const WORD64 := 0x1_0000_0000_0000_0000

  /** The big-endian number of a sequence of bytes. */
  function BigEndian(bytes: seq<Byte>): nat {
    if bytes == [] then 0 else BigEndian(bytes[..|bytes| - 1]) * 256 + bytes[|bytes| - 1]
  }

  lemma {:induction false} BigEndianBound(bytes: seq<Byte>, k: nat)
    requires |bytes| <= k <= 6
    ensures BigEndian(bytes) < [1, 0x100, 0x1_0000, 0x100_0000, 0x1_0000_0000, 0x100_0000_0000, 0x1_0000_0000_0000][k]
  {
    if k > 0 {
      if bytes != [] {
        BigEndianBound(bytes[..|bytes| - 1], k - 1);
      }
    }
  }

  lemma BigEndianOne(bytes: seq<Byte>, i: nat)
    requires i < |bytes| <= 6
    ensures BigEndian(bytes[..i + 1]) == BigEndian(bytes[..i]) * 256 + bytes[i]
    ensures BigEndian(bytes[..i]) < 0x100_0000_0000
  {
    BigEndianBound(bytes[..i], 5);
    assert bytes[..i + 1][..i] == bytes[..i];
  }

  function Values(tokens: seq<string>): seq<Byte> {
    seq(|tokens|, i requires 0 <= i < |tokens| => AtoXValue(Some(tokens[i])))
  }

  /** `macAddr <<= 8; macAddr += x;` on 64 bits. */
  function MacShift(macAddr: nat, x: Byte): (r: nat)
    ensures macAddr < 0x100_0000_0000 ==> r == macAddr * 256 + x
  {
    ((macAddr * 256) % WORD64 + x) % WORD64
  }

  /** `GetMacAddr`: six values from the first down, or all ones in 64 bits. */
  method GetMacAddr(mac: Option<string>) returns (macAddr: nat)
    ensures mac.None? ==> macAddr == WORD64 - 1
    ensures mac.Some? ==> var tokens := Tokens(mac.value, ":-", 0);
      macAddr == if |tokens| != 6 then WORD64 - 1 else BigEndian(Values(tokens))
  {
    if mac.None? {
      return WORD64 - 1;
    }
    var count, values := StrSplitC(mac, ":-", []);
    assert values == Tokens(mac.value, ":-", 0);
    if |values| != 6 {
      return WORD64 - 1;
    }
    macAddr := 0;
    var all := Values(values);
    for i := 0 to |values|
      invariant macAddr == BigEndian(all[..i])
    {
      BigEndianOne(all, i);
      var x := AtoX(Some(values[i]));
      macAddr := MacShift(macAddr, x);
    }
    assert all[..|values|] == all;
  }

  /** The text of a MAC address: each byte in either case, each separator ':' or '-'. */
  function MacPieces(bytes: seq<Byte>, upper: seq<bool>, dash: seq<bool>): seq<Piece>
    requires |upper| == |bytes| && |dash| == |bytes|
  {
    seq(|bytes|, i requires 0 <= i < |bytes| =>
      Piece(HexOf(bytes[i], upper[i]), if i == |bytes| - 1 then "" else if dash[i] then "-" else ":"))
  }

  lemma HexNotDelim(b: Byte, upperCase: bool)
    ensures NoDelims(HexOf(b, upperCase), ":-")
  {
    var s := HexOf(b, upperCase);
    DigitValue(b / 16, upperCase);
    DigitValue(b % 16, upperCase);
    forall i | 0 <= i < |s| ensures s[i] !in ":-" {
      assert GetXValue(s[i]) >= 0;
    }
  }

  /** Six bytes written as hexadecimal pairs and joined by ':' or '-' are read back as their big-endian
      number, which fits in 48 bits. */
  lemma MacRoundTrip(bytes: seq<Byte>, upper: seq<bool>, dash: seq<bool>)
    requires |bytes| == |upper| == |dash| == 6
    ensures var tokens := Tokens(Weave("", MacPieces(bytes, upper, dash)), ":-", 0);
      |tokens| == 6 && BigEndian(Values(tokens)) == BigEndian(bytes) < 0x1_0000_0000_0000
  {
    var pieces := MacPieces(bytes, upper, dash);
    forall i | 0 <= i < |pieces|
      ensures pieces[i].token != "" && NoDelims(pieces[i].token, ":-") && AllDelims(pieces[i].run, ":-")
    {
      HexNotDelim(bytes[i], upper[i]);
    }
    SplitInvertsWeave("", pieces, ":-");
    var tokens := TokensOf(pieces);
    assert Values(tokens) == bytes by {
      forall i | 0 <= i < 6 ensures Values(tokens)[i] == bytes[i] {
        HexRoundTrip(bytes[i], upper[i]);
      }
    }
    BigEndianBound(bytes, 6);
  }
}
