/** `encodeURIComponent`, as the background scripts use it for the viewer
    link: the unreserved characters stay, every other character becomes the
    percent escapes of its UTF-8 bytes, with upper-case hexadecimal digits.
    (Dafny's characters are Unicode scalar values, so the lone surrogates on
    which JavaScript throws cannot occur.) */
module UriEncoding {

  /** The characters `encodeURIComponent` leaves as they are. */
  predicate IsUnreserved(ch: char)
  {
    || ('A' <= ch <= 'Z') || ('a' <= ch <= 'z') || ('0' <= ch <= '9')
    || ch == '-' || ch == '_' || ch == '.' || ch == '!' || ch == '~'
    || ch == '*' || ch == '\'' || ch == '(' || ch == ')'
  }

  const HEX_DIGITS := "0123456789ABCDEF"

  /** The UTF-8 bytes of code point `cp`. */
  function Utf8(cp: nat): (bytes: seq<nat>)
    ensures 1 <= |bytes| <= 4
    ensures cp < 0x80 <==> bytes == [cp]
  {
    if cp < 0x80 then [cp]
    else if cp < 0x800 then [0xC0 + cp / 0x40, 0x80 + cp % 0x40]
    else if cp < 0x1_0000 then [0xE0 + cp / 0x1000, 0x80 + (cp / 0x40) % 0x40, 0x80 + cp % 0x40]
    else [0xF0 + cp / 0x4_0000, 0x80 + (cp / 0x1000) % 0x40, 0x80 + (cp / 0x40) % 0x40, 0x80 + cp % 0x40]
  }

  /** `%XY` for each byte. */
  function PercentEscapes(bytes: seq<nat>): (escaped: string)
    ensures |escaped| == 3 * |bytes|
    ensures forall i :: 0 <= i < |escaped| ==> escaped[i] == '%' || escaped[i] in HEX_DIGITS
  {
    if bytes == [] then []
    else ['%', HEX_DIGITS[(bytes[0] / 16) % 16], HEX_DIGITS[bytes[0] % 16]] + PercentEscapes(bytes[1..])
  }

  /** The escape of byte `k` sits at positions `3k` to `3k + 2`: a percent
      sign followed by the byte's high and low hexadecimal digits. */
  lemma {:induction false} PercentEscapesLayout(bytes: seq<nat>)
    ensures forall k :: 0 <= k < |bytes| ==>
              && PercentEscapes(bytes)[3 * k] == '%'
              && PercentEscapes(bytes)[3 * k + 1] == HEX_DIGITS[(bytes[k] / 16) % 16]
              && PercentEscapes(bytes)[3 * k + 2] == HEX_DIGITS[bytes[k] % 16]
    decreases |bytes|
  {
    if bytes != [] {
      var tail := bytes[1..];
      PercentEscapesLayout(tail);
      var escaped, rest := PercentEscapes(bytes), PercentEscapes(tail);
      assert escaped == ['%', HEX_DIGITS[(bytes[0] / 16) % 16], HEX_DIGITS[bytes[0] % 16]] + rest;
      forall k | 1 <= k < |bytes|
        ensures escaped[3 * k] == '%'
        ensures escaped[3 * k + 1] == HEX_DIGITS[(bytes[k] / 16) % 16]
        ensures escaped[3 * k + 2] == HEX_DIGITS[bytes[k] % 16]
      {
        assert bytes[k] == tail[k - 1];
        assert 3 * k == 3 * (k - 1) + 3;
      }
    }
  }

  function EncodeChar(ch: char): string
  {
    if IsUnreserved(ch) then [ch] else PercentEscapes(Utf8(ch as nat))
  }

  /** `encodeURIComponent(s)`: the result holds only unreserved characters
      and percent signs, so no `/`, `?`, `&`, `=` or `#` of the input can
      leak into a URL built from it. */
  function EncodeUriComponent(s: string): (encoded: string)
    ensures |encoded| >= |s|
    ensures forall i :: 0 <= i < |encoded| ==> IsUnreserved(encoded[i]) || encoded[i] == '%'
  {
    if s == [] then []
    else
      assert forall i :: 0 <= i < |HEX_DIGITS| ==> IsUnreserved(HEX_DIGITS[i]);
      EncodeChar(s[0]) + EncodeUriComponent(s[1..])
  }

  /** Encoding works character by character, keeping the order. */
  lemma {:induction false} EncodeAppend(a: string, b: string)
    ensures EncodeUriComponent(a + b) == EncodeUriComponent(a) + EncodeUriComponent(b)
    decreases |a|
  {
    if a == [] {
      assert a + b == b;
    } else {
      assert (a + b)[1..] == a[1..] + b;
      assert (a + b)[0] == a[0];
      EncodeAppend(a[1..], b);
      assert EncodeChar(a[0]) + (EncodeUriComponent(a[1..]) + EncodeUriComponent(b))
          == (EncodeChar(a[0]) + EncodeUriComponent(a[1..])) + EncodeUriComponent(b);
    }
  }

  /** Text made of unreserved characters only is left as it is. */
  lemma {:induction false} EncodeKeepsUnreserved(s: string)
    requires forall i :: 0 <= i < |s| ==> IsUnreserved(s[i])
    ensures EncodeUriComponent(s) == s
    decreases |s|
  {
    if s != [] {
      EncodeKeepsUnreserved(s[1..]);
    }
  }

  /** A slash becomes `%2F`. */
  lemma EncodeSlash()
    ensures EncodeUriComponent("/") == "%2F"
  {
    assert !IsUnreserved('/') && Utf8('/' as nat) == [0x2F];
    EscapeSlashByte();
    assert EncodeUriComponent("/") == EncodeChar('/') + EncodeUriComponent([]);
  }

  lemma EscapeSlashByte()
    ensures PercentEscapes([0x2F]) == "%2F"
  {
    var slash: seq<nat> := [0x2F];
    assert slash[0] / 16 % 16 == 2 && slash[0] % 16 == 15 && slash[1..] == [];
    assert PercentEscapes(slash) == ['%', HEX_DIGITS[2], HEX_DIGITS[15]] + PercentEscapes([]);
    assert HEX_DIGITS[2] == '2' && HEX_DIGITS[15] == 'F';
  }

  /** An absolute folder such as "/Photos" is sent as "%2FPhotos", and with
      a trailing slash as "%2FPhotos%2F". */
  lemma EncodeSlashedFolder(folder: string)
    requires forall i :: 0 <= i < |folder| ==> IsUnreserved(folder[i])
    ensures EncodeUriComponent("/" + folder) == "%2F" + folder
    ensures EncodeUriComponent("/" + folder + "/") == "%2F" + folder + "%2F"
  {
    EncodeSlash();
    EncodeKeepsUnreserved(folder);
    EncodeAppend("/", folder);
    EncodeAppend("/" + folder, "/");
  }
}
