/** Byte-level text. A Rust `String` is modelled as the UTF-8 bytes it holds. */
module Bytes {
  newtype byte = b: int | 0 <= b < 256

  type Text = seq<byte>

  /** The bytes of a string literal; only ever applied to ASCII literals. */
  function Ascii(s: string): (r: Text)
    ensures |r| == |s|
  {
    seq(|s|, i requires 0 <= i < |s| => (s[i] as int % 256) as byte)
  }

  const Newline: byte := 0x0A
  const Colon: byte := 0x3A
  const Plus: byte := 0x2B

  /** Rust regex `\d`, restricted to ASCII. */
  predicate IsDigit(b: byte) { 0x30 <= b <= 0x39 }

  /** Rust regex `\s`, restricted to ASCII: tab, line feed, vertical tab, form feed,
      carriage return and space. */
  predicate IsSpace(b: byte) { b == 0x20 || 0x09 <= b <= 0x0D }

  /** The class `[a-z0-9_.]` used for city and trailer identifiers. */
  predicate IsIdent(b: byte) { 0x61 <= b <= 0x7A || IsDigit(b) || b == 0x5F || b == 0x2E }

  /** A digit in base 16, in either case. */
  predicate IsHexDigit(b: byte) { IsDigit(b) || 0x61 <= b <= 0x66 || 0x41 <= b <= 0x46 }

  function HexValue(b: byte): (v: nat)
    requires IsHexDigit(b)
    ensures v < 16
  {
    if IsDigit(b) then (b - 0x30) as nat
    else if 0x61 <= b <= 0x66 then (b - 0x61) as nat + 10
    else (b - 0x41) as nat + 10
  }

  /** The hex digit for `v`, lower- or upper-case. */
  function HexDigit(v: nat, upper: bool): (b: byte)
    requires v < 16
    ensures IsHexDigit(b) && HexValue(b) == v
  {
    if v < 10 then (0x30 + v) as byte
    else if upper then (0x41 + v - 10) as byte
    else (0x61 + v - 10) as byte
  }

  predicate AllDigits(ds: Text) { forall i :: 0 <= i < |ds| ==> IsDigit(ds[i]) }

  /** The value of a run of decimal digits, accumulated from the left. */
  function DigitsValueFrom(acc: nat, ds: Text): nat
    requires AllDigits(ds)
    decreases |ds|
  {
    if ds == [] then acc else DigitsValueFrom(acc * 10 + (ds[0] - 0x30) as nat, ds[1..])
  }

  function DigitsValue(ds: Text): nat
    requires AllDigits(ds)
  {
    DigitsValueFrom(0, ds)
  }

  /** Appending one digit multiplies the value so far by ten and adds the digit. */
  lemma {:induction false} DigitsValueFromSnoc(acc: nat, ds: Text, d: byte)
    requires AllDigits(ds) && IsDigit(d)
    ensures AllDigits(ds + [d])
    ensures DigitsValueFrom(acc, ds + [d]) == DigitsValueFrom(acc, ds) * 10 + (d - 0x30) as nat
    decreases |ds|
  {
    if ds != [] {
      assert (ds + [d])[1..] == ds[1..] + [d];
      DigitsValueFromSnoc(acc * 10 + (ds[0] - 0x30) as nat, ds[1..], d);
    }
  }

  /** Accumulation never decreases the running value. */
  lemma {:induction false} DigitsValueFromGrows(acc: nat, ds: Text)
    requires AllDigits(ds)
    ensures DigitsValueFrom(acc, ds) >= acc
    decreases |ds|
  {
    if ds != [] {
      DigitsValueFromGrows(acc * 10 + (ds[0] - 0x30) as nat, ds[1..]);
    }
  }

  /** The decimal rendering of `n`, without leading zeros. */
  function Decimal(n: nat): (r: Text)
    ensures r != [] && AllDigits(r)
    ensures DigitsValue(r) == n
  {
    if n < 10 then
      var r := [(0x30 + n) as byte];
      assert r[1..] == [] && r[0] - 0x30 == n as byte;
      assert DigitsValueFrom(0, r) == DigitsValueFrom(n, []) == n;
      r
    else
      var r := Decimal(n / 10) + [(0x30 + n % 10) as byte];
      DigitsValueFromSnoc(0, Decimal(n / 10), (0x30 + n % 10) as byte);
      r
  }

  /** `pat` occurs in `t` at offset `i`. */
  predicate OccursAt(t: Text, pat: Text, i: nat)
  {
    i + |pat| <= |t| && t[i..i + |pat|] == pat
  }

  /** Rust's `str::contains` with a string pattern: a substring test. */
  function Contains(t: Text, pat: Text): (r: bool)
    ensures r <==> exists i :: 0 <= i && OccursAt(t, pat, i)
    decreases |t|
  {
    if |t| < |pat| then
      assert forall i :: 0 <= i ==> !OccursAt(t, pat, i);
      false
    else if t[..|pat|] == pat then
      assert OccursAt(t, pat, 0);
      true
    else
      ContainsTail(t, pat);
      Contains(t[1..], pat)
  }

  /** When `pat` is not at the front of `t`, it occurs in `t` exactly when it occurs in `t[1..]`. */
  lemma ContainsTail(t: Text, pat: Text)
    requires |t| >= |pat| && t[..|pat|] != pat
    ensures (exists i :: 0 <= i && OccursAt(t, pat, i)) <==> (exists i :: 0 <= i && OccursAt(t[1..], pat, i))
  {
    if j :| 0 <= j && OccursAt(t[1..], pat, j) {
      assert t[1..][j..j + |pat|] == t[j + 1..j + 1 + |pat|];
      assert OccursAt(t, pat, j + 1);
    }
    if i :| 0 <= i && OccursAt(t, pat, i) {
      assert i != 0;
      assert t[1..][i - 1..i - 1 + |pat|] == t[i..i + |pat|];
      assert OccursAt(t[1..], pat, i - 1);
    }
  }
}
