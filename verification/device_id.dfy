/**
 * The device identifier that `getMacAddress` derives from the WiFi MAC address.
 *
 * The code formats "ESP32-%02X%02X%02X%02X%02X%02X" (6 + 12 = 18 characters) with
 * `snprintf` into `char macStr[18]`. `snprintf` writes at most `size - 1` characters and a
 * terminator, so the identifier keeps only 17 characters and loses the low hex digit of the
 * last MAC byte. `GetMacAddress` models that; `DeviceIdIntended` is the identifier the format
 * string evidently asks for, with a buffer one byte larger.
 */
module DeviceId {
  import opened Base

  /** The six bytes `WiFi.macAddress` writes into `uint8_t mac[6]`. */
  type Mac = s: seq<Byte> | |s| == 6 witness [0, 0, 0, 0, 0, 0]

  const PREFIX: string := "ESP32-"

  /** `sizeof(macStr)` in `getMacAddress`. */
  const MAC_STR_SIZE: nat := 18

  /** An upper-case hexadecimal digit, as `%X` prints it. */
  function HexDigit(n: nat): (c: char)
    requires n < 16
    ensures HexValue(c) == Some(n)
  {
    if n < 10 then (n + '0' as int) as char else (n - 10 + 'A' as int) as char
  }

  /** The value of an upper-case hexadecimal digit; `None` for any other character. */
  function HexValue(c: char): Option<nat>
  {
    if '0' <= c <= '9' then Some(c as int - '0' as int)
    else if 'A' <= c <= 'F' then Some(c as int - 'A' as int + 10)
    else None
  }

  /** `%02X` of one byte: exactly two digits, high nibble first. */
  function Hex2(b: Byte): (s: string)
  {
    [HexDigit(b / 16), HexDigit(b % 16)]
  }

  /** The `%02X` texts of `bs`, concatenated. */
  function HexBytes(bs: seq<Byte>): (s: string)
    ensures |s| == 2 * |bs|
  {
    if |bs| == 0 then [] else Hex2(bs[0]) + HexBytes(bs[1..])
  }

  /** The text the format string describes, before `snprintf` fits it into the buffer. */
  function Formatted(mac: Mac): (s: string)
    ensures |s| == |PREFIX| + 12
  {
    PREFIX + HexBytes(mac)
  }

  /**
   * What `snprintf(buf, size, ...)` leaves in `buf` when the formatted text is `full`:
   * the longest prefix of `full` that fits in `size - 1` characters.
   */
  function Snprintf(full: string, size: nat): (r: string)
    requires size > 0
    ensures r <= full
    ensures |r| == if |full| < size then |full| else size - 1
  {
    if |full| < size then full else full[..size - 1]
  }

  /** `getMacAddress()` as written: the formatted identifier cut to 17 characters. */
  function GetMacAddress(mac: Mac): (id: string)
    ensures |id| == MAC_STR_SIZE - 1 && id < Formatted(mac)
  {
    Snprintf(Formatted(mac), MAC_STR_SIZE)
  }

  /** The identifier with room for the terminator: all twelve hex digits are kept. */
  function DeviceIdIntended(mac: Mac): (id: string)
    ensures id == Formatted(mac)
  {
    Snprintf(Formatted(mac), MAC_STR_SIZE + 1)
  }

  /** Reads back a string of `%02X` pairs; `None` for odd length or a non-hex character. */
  function ParseHexBytes(s: string): Option<seq<Byte>>
    decreases |s|
  {
    if |s| == 0 then Some([])
    else if |s| == 1 then None
    else
      match (HexValue(s[0]), HexValue(s[1]), ParseHexBytes(s[2..]))
      case (Some(hi), Some(lo), Some(rest)) =>
        if hi < 16 && lo < 16 then Some([16 * hi + lo] + rest) else None
      case _ => None
  }

  /** Reads back a full identifier "ESP32-" + 12 hex digits as the MAC it came from. */
  function ParseDeviceId(s: string): Option<Mac>
  {
    if |s| == |PREFIX| + 12 && s[..|PREFIX|] == PREFIX then
      match ParseHexBytes(s[|PREFIX|..])
      case Some(bs) => if |bs| == 6 then Some(bs) else None
      case None => None
    else None
  }

  /** The digit at each position of `HexBytes(bs)`: byte `i` gives positions `2i` and `2i + 1`. */
  lemma {:induction false} HexBytesAt(bs: seq<Byte>, i: nat)
    requires i < |bs|
    ensures HexBytes(bs)[2 * i] == HexDigit(bs[i] / 16)
    ensures HexBytes(bs)[2 * i + 1] == HexDigit(bs[i] % 16)
  {
    if i > 0 {
      HexBytesAt(bs[1..], i - 1);
    }
  }

  /** `%02X` formatting of a byte sequence reads back exactly. */
  lemma {:induction false} HexBytesInverse(bs: seq<Byte>)
    ensures ParseHexBytes(HexBytes(bs)) == Some(bs)
  {
    if |bs| > 0 {
      HexBytesInverse(bs[1..]);
      var s := HexBytes(bs);
      assert s[2..] == HexBytes(bs[1..]);
      assert 16 * (bs[0] / 16) + bs[0] % 16 == bs[0];
      assert [bs[0]] + bs[1..] == bs;
    }
  }

  /**
   * The identifier as written: 17 characters, "ESP32-", then the two digits of each of the
   * first five MAC bytes and only the high digit of the sixth.
   */
  lemma GetMacAddressShape(mac: Mac)
    ensures var id := GetMacAddress(mac);
      && |id| == 17
      && id == Formatted(mac)[..17]
      && id[..|PREFIX|] == PREFIX
      && (forall i | 0 <= i < 5 ::
            id[6 + 2 * i] == HexDigit(mac[i] / 16) && id[7 + 2 * i] == HexDigit(mac[i] % 16))
      && id[16] == HexDigit(mac[5] / 16)
  {
    var id := GetMacAddress(mac);
    forall i | 0 <= i < 5
      ensures id[6 + 2 * i] == HexDigit(mac[i] / 16) && id[7 + 2 * i] == HexDigit(mac[i] % 16)
    {
      HexBytesAt(mac, i);
    }
    HexBytesAt(mac, 5);
  }

  /**
   * Two MACs get the same identifier exactly when they agree on the first five bytes and on
   * the high nibble of the sixth: the low nibble of the last byte is lost.
   */
  lemma GetMacAddressCollides(m1: Mac, m2: Mac)
    ensures GetMacAddress(m1) == GetMacAddress(m2) <==>
      m1[..5] == m2[..5] && m1[5] / 16 == m2[5] / 16
  {
    GetMacAddressShape(m1);
    GetMacAddressShape(m2);
    var id1, id2 := GetMacAddress(m1), GetMacAddress(m2);
    if m1[..5] == m2[..5] && m1[5] / 16 == m2[5] / 16 {
      forall k | 0 <= k < 17 ensures id1[k] == id2[k] {
        if 6 <= k < 16 {
          var i := (k - 6) / 2;
          assert m1[i] == m1[..5][i] && m2[i] == m2[..5][i];
        }
      }
      assert id1 == id2;
    }
    if id1 == id2 {
      forall i | 0 <= i < 5 ensures m1[i] == m2[i] {
        assert HexValue(id1[6 + 2 * i]) == Some(m1[i] / 16);
        assert HexValue(id1[7 + 2 * i]) == Some(m1[i] % 16);
        assert HexValue(id2[6 + 2 * i]) == Some(m2[i] / 16);
        assert HexValue(id2[7 + 2 * i]) == Some(m2[i] % 16);
      }
      assert HexValue(id1[16]) == Some(m1[5] / 16);
      assert HexValue(id2[16]) == Some(m2[5] / 16);
    }
  }

  /** A concrete pair of MACs that `getMacAddress` cannot tell apart. */
  lemma TruncatedIdsCollide()
    ensures GetMacAddress([0x24, 0x6F, 0x28, 0xAB, 0xCD, 0xE0])
         == GetMacAddress([0x24, 0x6F, 0x28, 0xAB, 0xCD, 0xEF])
  {
    var m1: Mac := [0x24, 0x6F, 0x28, 0xAB, 0xCD, 0xE0];
    var m2: Mac := [0x24, 0x6F, 0x28, 0xAB, 0xCD, 0xEF];
    assert m1[..5] == m2[..5] && m1[5] / 16 == m2[5] / 16;
    GetMacAddressCollides(m1, m2);
  }

  /** The intended identifier keeps every digit: it is "ESP32-" + 12 hex digits and reads back as the MAC. */
  lemma DeviceIdIntendedInverse(mac: Mac)
    ensures |DeviceIdIntended(mac)| == 18
    ensures DeviceIdIntended(mac)[..|PREFIX|] == PREFIX
    ensures ParseDeviceId(DeviceIdIntended(mac)) == Some(mac)
  {
    var id := DeviceIdIntended(mac);
    assert id == PREFIX + HexBytes(mac);
    assert id[|PREFIX|..] == HexBytes(mac);
    HexBytesInverse(mac);
  }

  /** Hence distinct MACs always get distinct intended identifiers. */
  lemma DeviceIdIntendedInjective(m1: Mac, m2: Mac)
    ensures DeviceIdIntended(m1) == DeviceIdIntended(m2) <==> m1 == m2
  {
    DeviceIdIntendedInverse(m1);
    DeviceIdIntendedInverse(m2);
  }
}
