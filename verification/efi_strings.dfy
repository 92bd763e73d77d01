/** The two "overly simplified" string converters of plat/kvm/efi.c:
    ascii_to_utf16 widens each byte of a C string into one UTF-16LE unit,
    utf16_to_ascii keeps the low byte of each unit. Memory is modelled as
    the byte sequence a routine reads or writes, starting at its pointer. */
module EfiStrings {
  import opened Common

  /** The characters of a C string: no byte is the terminator. */
  predicate NulFree(s: seq<byte>)
  {
    forall k :: 0 <= k < |s| ==> s[k] != 0
  }

  /** The UTF-16LE units spelling s: byte k at offset 2k, zero at 2k+1. */
  function Widen(s: seq<byte>): (w: seq<byte>)
    ensures |w| == 2 * |s|
    ensures forall k :: 0 <= k < |s| ==> w[2 * k] == s[k] && w[2 * k + 1] == 0
  {
    if s == [] then [] else [s[0], 0] + Widen(s[1..])
  }

  lemma WidenStep(s: seq<byte>, k: nat, m: nat)
    requires k < m <= |s|
    ensures Widen(s[k..m]) == [s[k], 0] + Widen(s[k + 1..m])
  {
  }

  /** What a converter leaves behind: the bytes it stored, from the start
      of the destination, and the value it returns. */
  datatype Conversion = Conversion(out: seq<byte>, ret: nat)

  /** ascii_to_utf16's bound test compares the byte index i, which only ever
      holds even values, with max_len16 while characters remain. */
  predicate Utf16BoundHit(n: nat, maxLen16: nat)
  {
    maxLen16 % 2 == 0 && maxLen16 / 2 < n
  }

  /** The loop of ascii_to_utf16 from character k on (byte index i == 2k). */
  function EncodeFrom(str: seq<byte>, k: nat, maxLen16: nat): (c: Conversion)
    requires NulFree(str) && k <= |str|
    requires maxLen16 % 2 == 1 || 2 * k <= maxLen16
    ensures Utf16BoundHit(|str|, maxLen16) ==>
              c == Conversion(Widen(str[k..maxLen16 / 2]), SZ_MAX)
    ensures !Utf16BoundHit(|str|, maxLen16) ==>
              c == Conversion(Widen(str[k..]) + [0, 0], 2 * |str| + 2)
    decreases |str| - k
  {
    if k == |str| then
      // str[i >> 1] is the terminator: store the 16-bit NUL, return i + 2
      Conversion([0, 0], 2 * k + 2)
    else if 2 * k == maxLen16 then
      Conversion([], SZ_MAX)
    else
      var rest := EncodeFrom(str, k + 1, maxLen16);
      EncodeStep(str, k, maxLen16, rest);
      Conversion([str[k], 0] + rest.out, rest.ret)
  }

  lemma EncodeStep(str: seq<byte>, k: nat, maxLen16: nat, rest: Conversion)
    requires k < |str| && 2 * k != maxLen16
    requires maxLen16 % 2 == 1 || 2 * k <= maxLen16
    requires Utf16BoundHit(|str|, maxLen16) ==> rest == Conversion(Widen(str[k + 1..maxLen16 / 2]), SZ_MAX)
    requires !Utf16BoundHit(|str|, maxLen16) ==> rest == Conversion(Widen(str[k + 1..]) + [0, 0], 2 * |str| + 2)
    ensures Utf16BoundHit(|str|, maxLen16) ==>
              Conversion([str[k], 0] + rest.out, rest.ret) == Conversion(Widen(str[k..maxLen16 / 2]), SZ_MAX)
    ensures !Utf16BoundHit(|str|, maxLen16) ==>
              Conversion([str[k], 0] + rest.out, rest.ret) == Conversion(Widen(str[k..]) + [0, 0], 2 * |str| + 2)
  {
    if Utf16BoundHit(|str|, maxLen16) {
      var m := maxLen16 / 2;
      assert k < m <= |str|;
      WidenStep(str, k, m);
    } else {
      WidenTail(str, k);
    }
  }

  lemma WidenTail(str: seq<byte>, k: nat)
    requires k < |str|
    ensures Widen(str[k..]) == [str[k], 0] + Widen(str[k + 1..])
  {
  }

  /** ascii_to_utf16(str, str16, max_len16) as written (efi.c:80-96). The
      bound test only fires for an even bound below 2n; for the odd bounds
      the file passes (4095 and 255) it never does, and every character is
      stored however many there are. */
  function AsciiToUtf16(str: seq<byte>, maxLen16: nat): (c: Conversion)
    requires NulFree(str)
    ensures c.ret == SZ_MAX <==> Utf16BoundHit(|str|, maxLen16)
    ensures c.ret == SZ_MAX ==> c.out == Widen(str[..maxLen16 / 2])
    ensures c.ret != SZ_MAX ==> c.ret == 2 * |str| + 2 && c.out == Widen(str) + [0, 0]
    ensures |c.out| <= 2 * |str| + 2
  {
    assert str[0..] == str;
    EncodeFrom(str, 0, maxLen16)
  }

  /** The low byte of UTF-16 unit j; it is all utf16_to_ascii looks at. */
  function Low(s: seq<byte>, j: nat): byte
    requires 2 * j < |s|
  {
    s[2 * j]
  }

  /** Units lo .. hi-1 all lie in s and have a non-zero low byte. */
  predicate NonZeroUnits(s: seq<byte>, lo: nat, hi: nat)
  {
    forall j :: lo <= j < hi ==> 2 * j < |s| && Low(s, j) != 0
  }

  /** The low bytes of units lo .. hi-1. */
  function Narrow(s: seq<byte>, lo: nat, hi: nat): (r: seq<byte>)
    requires lo <= hi && 2 * hi <= |s| + 1
    ensures |r| == hi - lo
    ensures forall j :: 0 <= j < hi - lo ==> r[j] == Low(s, lo + j)
    decreases hi - lo
  {
    if lo == hi then [] else [Low(s, lo)] + Narrow(s, lo + 1, hi)
  }

  /** The memory utf16_to_ascii reads from unit k is there: either every
      unit up to the bound lies in s, or a terminating unit does. The whole
      of s lies in a 64-bit address space. */
  predicate Utf16Readable(s: seq<byte>, k: nat, maxLen: nat)
  {
    && |s| < U64_LIMIT
    && k <= maxLen
    && (2 * maxLen < |s| || exists j :: k <= j <= maxLen && 2 * j < |s| && Low(s, j) == 0)
  }

  /** The loop of utf16_to_ascii from unit k on. */
  function DecodeFrom(s: seq<byte>, k: nat, maxLen: nat): (c: Conversion)
    requires Utf16Readable(s, k, maxLen)
    ensures c.ret == SZ_MAX <==> NonZeroUnits(s, k, maxLen + 1)
    ensures c.ret == SZ_MAX ==> c.out == Narrow(s, k, maxLen)
    ensures c.ret != SZ_MAX ==>
              && k + 1 <= c.ret <= maxLen + 1
              && 2 * (c.ret - 1) < |s|
              && Low(s, c.ret - 1) == 0
              && NonZeroUnits(s, k, c.ret - 1)
              && c.out == Narrow(s, k, c.ret - 1) + [0]
    decreases maxLen - k
  {
    if Low(s, k) == 0 then
      Conversion([0], k + 1)
    else if k == maxLen then
      Conversion([], SZ_MAX)
    else
      var rest := DecodeFrom(s, k + 1, maxLen);
      Conversion([Low(s, k)] + rest.out, rest.ret)
  }

  /** utf16_to_ascii(str16, str, max_len) (efi.c:99-114): copies low bytes
      until a unit whose low byte is zero, then stores a terminator and
      returns the count plus one; when the count reaches max_len first it
      returns __SZ_MAX. */
  function Utf16ToAscii(s: seq<byte>, maxLen: nat): (c: Conversion)
    requires Utf16Readable(s, 0, maxLen)
    ensures c.ret == SZ_MAX <==> NonZeroUnits(s, 0, maxLen + 1)
    ensures c.ret == SZ_MAX ==> c.out == Narrow(s, 0, maxLen)
    ensures c.ret != SZ_MAX ==>
              && 1 <= c.ret <= maxLen + 1
              && 2 * (c.ret - 1) < |s|
              && Low(s, c.ret - 1) == 0
              && NonZeroUnits(s, 0, c.ret - 1)
              && c.out == Narrow(s, 0, c.ret - 1) + [0]
  {
    DecodeFrom(s, 0, maxLen)
  }

  /** Keeping the low bytes of a widened string gives the string back. */
  lemma NarrowWiden(t: seq<byte>, tail: seq<byte>, lo: nat)
    requires lo <= |t|
    ensures Narrow(Widen(t) + tail, lo, |t|) == t[lo..]
  {
  }

  /** Composing the converters reproduces any C string: the UTF-16 image
      ascii_to_utf16 produces (whenever its bound does not fire), read back
      with the bound the command-line path uses for a buffer of that size
      (half its byte length), decodes to the same characters plus the
      terminator, and reports their count plus one. */
  lemma DecodeEncode(str: seq<byte>, maxLen16: nat)
    requires NulFree(str) && !Utf16BoundHit(|str|, maxLen16)
    requires 2 * |str| + 2 < U64_LIMIT
    ensures var enc := AsciiToUtf16(str, maxLen16);
            && Utf16Readable(enc.out, 0, |enc.out| / 2)
            && Utf16ToAscii(enc.out, |enc.out| / 2) == Conversion(str + [0], |str| + 1)
  {
    var enc := AsciiToUtf16(str, maxLen16);
    var w := enc.out;
    assert w == Widen(str) + [0, 0];
    var n := |str|;
    assert |w| / 2 == n + 1;
    assert Low(w, n) == 0;
    assert Utf16Readable(w, 0, n + 1);
    forall j | 0 <= j < n
      ensures 2 * j < |w| && Low(w, j) != 0
    {
      assert Low(w, j) == str[j];
    }
    assert NonZeroUnits(w, 0, n);
    var dec := Utf16ToAscii(w, n + 1);
    assert dec.ret != SZ_MAX;
    assert dec.ret == n + 1;
    NarrowWiden(str, [0, 0], 0);
    assert str[0..] == str;
  }

  /** The load-options path (efi.c:523-538) sizes the destination at
      load_options_size / 2 + 1 bytes and converts with bound
      load_options_size / 2: whatever the options hold, a result that is
      not __SZ_MAX counts at most load_options_size / 2 characters. */
  lemma CmdlineFitsHalfSize(opts: seq<byte>, size: nat)
    requires Utf16Readable(opts, 0, size / 2)
    ensures var c := Utf16ToAscii(opts, size / 2);
            c.ret != SZ_MAX ==> c.ret - 1 <= size / 2 && |c.out| == c.ret
  {
  }

  /** ascii_to_utf16 with the bound counted in UTF-16 units rather than in
      bytes, the test (i >> 1) == max_len16: a string longer than max_len16
      characters is refused, so what is stored never exceeds max_len16 + 1
      units, the size of the buffers the file passes. */
  function EncodeUnitsFrom(str: seq<byte>, k: nat, maxUnits: nat): (c: Conversion)
    requires NulFree(str) && k <= |str| && k <= maxUnits
    ensures c.ret == SZ_MAX <==> |str| > maxUnits
    ensures c.ret != SZ_MAX ==> c == Conversion(Widen(str[k..]) + [0, 0], 2 * |str| + 2)
    ensures 2 * k + |c.out| <= 2 * (maxUnits + 1)
    decreases |str| - k
  {
    if k == |str| then
      Conversion([0, 0], 2 * k + 2)
    else if k == maxUnits then
      Conversion([], SZ_MAX)
    else
      var rest := EncodeUnitsFrom(str, k + 1, maxUnits);
      EncodeUnitsStep(str, k, rest);
      Conversion([str[k], 0] + rest.out, rest.ret)
  }

  lemma EncodeUnitsStep(str: seq<byte>, k: nat, rest: Conversion)
    requires k < |str|
    requires rest.ret != SZ_MAX ==> rest == Conversion(Widen(str[k + 1..]) + [0, 0], 2 * |str| + 2)
    ensures rest.ret != SZ_MAX ==>
              Conversion([str[k], 0] + rest.out, rest.ret) == Conversion(Widen(str[k..]) + [0, 0], 2 * |str| + 2)
  {
  }

  function AsciiToUtf16Units(str: seq<byte>, maxUnits: nat): (c: Conversion)
    requires NulFree(str)
    ensures c.ret == SZ_MAX <==> |str| > maxUnits
    ensures c.ret != SZ_MAX ==> c.ret == 2 * |str| + 2 && c.out == Widen(str) + [0, 0]
    ensures |c.out| <= 2 * (maxUnits + 1)
  {
    assert str[0..] == str;
    EncodeUnitsFrom(str, 0, maxUnits)
  }

  /** As written, read_file's call ascii_to_utf16(name, file_name16, 4095)
      stores every character of a 4096-character name, 8194 bytes, into the
      8192-byte file_name16 array; the units-counted bound refuses it. */
  lemma PathBoundNeverFires(name: seq<byte>)
    requires NulFree(name) && |name| == 4096
    ensures AsciiToUtf16(name, 4095).ret != SZ_MAX
    ensures |AsciiToUtf16(name, 4095).out| == 8194 > 2 * 4096
    ensures AsciiToUtf16Units(name, 4095).ret == SZ_MAX
  {
  }
}
