/**
 * Cell values as openpyxl hands them to the program, Python's `bool()` and
 * `str()` on them, and the placeholder-to-value records ("contexts").
 */
module Cells {
  import opened Text

  /** A cell's `.value`: `None`, a string, or an integral number. */
  datatype Cell = Empty | String(s: string) | Number(n: int)

  /** The cells of one sheet row, left to right; column 0 is `A`. */
  type Row = seq<Cell>

  /** Python's `bool(cell.value)`. */
  predicate Truthy(c: Cell) {
    match c
    case Empty => false
    case String(s) => s != ""
    case Number(n) => n != 0
  }

  function DigitChar(d: nat): (c: char)
    requires d < 10
    ensures '0' <= c <= '9'
  {
    "0123456789"[d]
  }

  function DigitValue(c: char): nat {
    if '0' <= c <= '9' then (c as int - '0' as int) as nat else 0
  }

  predicate IsDigit(c: char) {
    '0' <= c <= '9'
  }

  /** Decimal digits of `n`, most significant first, without leading zeros. */
  function NatToString(n: nat): (r: string)
    ensures |r| > 0 && forall i :: 0 <= i < |r| ==> IsDigit(r[i])
    ensures |r| > 1 ==> r[0] != '0'
    decreases n
  {
    if n < 10 then [DigitChar(n)] else NatToString(n / 10) + [DigitChar(n % 10)]
  }

  /** Python's `str(i)` for an `int`. */
  function IntToString(i: int): (r: string)
    ensures |r| > 0
    ensures forall k :: 0 <= k < |r| ==> IsDigit(r[k]) || (k == 0 && r[k] == '-')
  {
    if i < 0 then "-" + NatToString(-i) else NatToString(i)
  }

  /** Value of a string of decimal digits, most significant first. */
  function ParseNat(s: string): nat
    decreases |s|
  {
    if s == [] then 0 else ParseNat(s[..|s| - 1]) * 10 + DigitValue(s[|s| - 1])
  }

  /** Python's `int(s)` on what `str` prints for an `int`. */
  function ParseInt(s: string): int {
    if s != [] && s[0] == '-' then 0 - ParseNat(s[1..]) else ParseNat(s)
  }

  lemma {:induction false} ParseNatToString(n: nat)
    ensures ParseNat(NatToString(n)) == n
    decreases n
  {
    var r := NatToString(n);
    if n >= 10 {
      ParseNatToString(n / 10);
      assert r[..|r| - 1] == NatToString(n / 10);
      assert DigitValue(r[|r| - 1]) == n % 10;
    }
  }

  /** `int(str(i)) == i`: what `str` prints for an integer identifies it. */
  lemma ParseIntToString(i: int)
    ensures ParseInt(IntToString(i)) == i
  {
    if i < 0 {
      ParseNatToString(-i);
      assert IntToString(i)[1..] == NatToString(-i);
    } else {
      ParseNatToString(i);
    }
  }

  /** Python's `str(cell.value)`. */
  function Str(c: Cell): string {
    match c
    case Empty => "None"
    case String(s) => s
    case Number(n) => IntToString(n)
  }

  /** What `str` prints for a cell that holds no string never contains `{`. */
  lemma PlainValueHasNoBrace(c: Cell)
    requires !c.String?
    ensures forall i :: 0 <= i < |Str(c)| ==> Str(c)[i] != '{'
  {
  }

  /** A placeholder token, e.g. `{%имя%}`: it starts with `{`. */
  predicate WellFormedKey(k: string) {
    |k| > 0 && k[0] == '{'
  }

  /** A placeholder key never occurs in what `str` prints for a non-string cell. */
  lemma PlainValueHasNoKey(c: Cell, k: string)
    requires !c.String? && WellFormedKey(k)
    ensures !Contains(Str(c), k)
  {
    PlainValueHasNoBrace(c);
    AbsentFirstCharacter(Str(c), k);
  }

  /** One `key: value` item of a context dictionary. */
  datatype Entry = Entry(key: string, value: Cell)

  /** A context: a dictionary from placeholder to value, in insertion order. */
  type Context = seq<Entry>

  function Keys(ctx: Context): (ks: seq<string>)
    ensures |ks| == |ctx| && forall i :: 0 <= i < |ctx| ==> ks[i] == ctx[i].key
  {
    seq(|ctx|, i requires 0 <= i < |ctx| => ctx[i].key)
  }

  predicate KeysWellFormed(ctx: Context) {
    forall i :: 0 <= i < |ctx| ==> WellFormedKey(ctx[i].key)
  }

  /** The eight placeholders every bill context carries, in insertion order. */
  const Placeholders: seq<string> := [
    "{%номер%}", "{%имя%}", "{%лицевой_счет%}", "{%месяц%}",
    "{%год%}", "{%долг%}", "{%долг_рубли%}", "{%долг_копейки%}"
  ]

  /** The placeholders are distinct dictionary keys, and each starts with `{`. */
  lemma PlaceholdersWellFormed()
    ensures forall i :: 0 <= i < |Placeholders| ==> WellFormedKey(Placeholders[i])
    ensures forall i, j :: 0 <= i < j < |Placeholders| ==> Placeholders[i] != Placeholders[j]
  {
  }
}
