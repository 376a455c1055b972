/**
  Gateway MAC addresses and the IDs made of them (getMac and getID in backend/pktfwd/backend.go).
  The text form of an EUI64 is sixteen lower-case hexadecimal digits; upper case is read as well.
 */
module Euis {
  import opened Machine
  import opened Text

  type Eui = m: Bytes | |m| == 8 witness [0, 0, 0, 0, 0, 0, 0, 0]

  const ZERO: Eui := [0, 0, 0, 0, 0, 0, 0, 0]

  function HexDigit(n: nat): char
    requires n < 16
  {
    if n < 10 then ('0' as int + n) as char else ('a' as int + n - 10) as char
  }

  predicate IsHexDigit(c: char) {
    '0' <= c <= '9' || 'a' <= c <= 'f' || 'A' <= c <= 'F'
  }

  function DigitValue(c: char): (n: nat)
    requires IsHexDigit(c)
    ensures n < 16
  {
    if c <= '9' then c as int - '0' as int
    else if c >= 'a' then c as int - 'a' as int + 10
    else c as int - 'A' as int + 10
  }

  function Hex(bs: Bytes): string {
    if bs == [] then "" else [HexDigit(bs[0] / 16), HexDigit(bs[0] % 16)] + Hex(bs[1..])
  }

  predicate IsHex(s: string) {
    |s| % 2 == 0 && forall i | 0 <= i < |s| :: IsHexDigit(s[i])
  }

  function Unhex(s: string): (bs: Bytes)
    requires IsHex(s)
    ensures |bs| == |s| / 2
  {
    if s == "" then [] else [16 * DigitValue(s[0]) + DigitValue(s[1])] + Unhex(s[2..])
  }

  const PREFIX := "eui-"

  function TrimPrefix(s: string, prefix: string): string {
    if prefix <= s then s[|prefix|..] else s
  }

  function GetID(mac: Eui): string {
    PREFIX + Hex(mac)
  }

  /** A text that is no EUI64 leaves the address at its zero value. */
  function GetMac(id: string): Eui {
    var text := TrimPrefix(id, PREFIX);
    if |text| == 16 && IsHex(text) then Unhex(text) else ZERO
  }

  lemma {:induction false} HexRoundTrip(bs: Bytes)
    ensures IsHex(Hex(bs)) && Unhex(Hex(bs)) == bs && |Hex(bs)| == 2 * |bs|
    ensures ToLower(Hex(bs)) == Hex(bs)
  {
    if bs != [] {
      HexRoundTrip(bs[1..]);
      var s := Hex(bs);
      assert s[2..] == Hex(bs[1..]);
      forall i | 0 <= i < |s| ensures IsHexDigit(s[i]) && LowerChar(s[i]) == s[i] {
        if i >= 2 {
          assert s[i] == Hex(bs[1..])[i - 2] == ToLower(Hex(bs[1..]))[i - 2];
        }
      }
      assert ToLower(s) == s;
    }
  }

  lemma DigitText(n: nat)
    requires n < 16
    ensures HexDigit(n) == "0123456789abcdef"[n]
  {
  }

  /** Two digits a byte, the high half first. */
  lemma {:induction false} HexDigits(bs: Bytes, i: nat)
    requires i < |bs|
    ensures |Hex(bs)| == 2 * |bs|
    ensures Hex(bs)[2 * i] == "0123456789abcdef"[bs[i] / 16] && Hex(bs)[2 * i + 1] == "0123456789abcdef"[bs[i] % 16]
  {
    hide HexDigit, IsHex, Unhex, ToLower;
    HexRoundTrip(bs);
    DigitText(bs[i] / 16);
    DigitText(bs[i] % 16);
    if i > 0 {
      HexDigits(bs[1..], i - 1);
      assert Hex(bs)[2 * i] == Hex(bs[1..])[2 * (i - 1)] && Hex(bs)[2 * i + 1] == Hex(bs[1..])[2 * (i - 1) + 1];
    }
  }

  lemma TwoDigits(c: char, d: char)
    requires IsHexDigit(c) && IsHexDigit(d)
    ensures var b := 16 * DigitValue(c) + DigitValue(d);
            b < 256 && HexDigit(b / 16) == LowerChar(c) && HexDigit(b % 16) == LowerChar(d)
  {
  }

  /** Reading and printing lowers the digits and does nothing else. */
  lemma {:induction false} UnhexReads(s: string)
    requires IsHex(s)
    ensures Hex(Unhex(s)) == ToLower(s)
  {
    if s != "" {
      TwoDigits(s[0], s[1]);
      hide HexDigit, DigitValue, LowerChar, IsHexDigit;
      UnhexReads(s[2..]);
      assert Unhex(s)[1..] == Unhex(s[2..]);
      assert ToLower(s) == [LowerChar(s[0]), LowerChar(s[1])] + ToLower(s[2..]);
    }
  }

  /** Sixteen hexadecimal digits of either case name an address with or without the prefix, and nothing else does. */
  lemma EveryMac(text: string)
    ensures |text| == 16 && IsHex(text) ==>
              GetMac("eui-" + text) == GetMac(text) && Hex(GetMac(text)) == ToLower(text)
    ensures !(|text| == 16 && IsHex(text)) && !("eui-" <= text && |text| == 20 && IsHex(text[4..])) ==>
              GetMac(text) == [0, 0, 0, 0, 0, 0, 0, 0]
  {
    if |text| == 16 && IsHex(text) {
      UnhexReads(text);
      assert ("eui-" + text)[4..] == text;
      assert IsHexDigit(text[1]);
    }
  }

  /** An ID made of an address names that address, and the exchange's lower-casing keeps it. */
  lemma IDNamesItsMac(mac: Eui)
    ensures GetMac(GetID(mac)) == mac
    ensures GetID(mac) == "eui-" + Hex(mac)
    ensures ToLower(GetID(mac)) == GetID(mac)
  {
    HexRoundTrip(mac);
    var id := GetID(mac);
    assert id[|PREFIX|..] == Hex(mac);
    forall i | 0 <= i < |id| ensures LowerChar(id[i]) == id[i] {
      if i >= |PREFIX| {
        assert id[i] == Hex(mac)[i - |PREFIX|] == ToLower(Hex(mac))[i - |PREFIX|];
      }
    }
    assert ToLower(id) == id;
  }

  lemma IDsAreDistinct(a: Eui, b: Eui)
    requires GetID(a) == GetID(b)
    ensures a == b
  {
    IDNamesItsMac(a);
    IDNamesItsMac(b);
  }
}
