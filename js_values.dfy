/**
 * The JavaScript values the page script handles once jQuery has decoded the
 * server's JSON reply, and the few built-in operations the script applies to
 * them: `typeof`, truthiness, `Object.keys`, `Object.entries`, property reads
 * `v[k]` and string concatenation `'' + v`.
 */
module JsValues {
  import opened Wrappers

  /**
   * A decoded JSON value. Numbers are integers. An object keeps its own
   * properties in the order `Object.keys` reports them. `JSON.parse` never
   * yields an object with a repeated key (`UniqueKeys`); the type does not
   * exclude one, and what the model shows for such a value means nothing.
   */
  datatype Json =
    | Null
    | Bool(b: bool)
    | Num(n: int)
    | Str(s: string)
    | Arr(items: seq<Json>)
    | Obj(fields: seq<(string, Json)>)

  /** What a property read `v[k]` gives: `undefined`, or a value. */
  datatype Slot = Undefined | Val(v: Json)

  /** The outcome of script code that may throw a `TypeError`. */
  datatype Result<T> = Ok(value: T) | TypeError

  /** `typeof v === 'object'`: true of null as well as of arrays and objects. */
  predicate IsObjectType(v: Json) {
    v.Null? || v.Arr? || v.Obj?
  }

  /** `typeof v === 'object' && v !== null`. */
  predicate IsContainer(v: Json) {
    v.Arr? || v.Obj?
  }

  /** `!!v`: null, false, 0 and "" are falsy; every array and object is truthy. */
  predicate Truthy(v: Json) {
    match v
    case Null => false
    case Bool(b) => b
    case Num(n) => n != 0
    case Str(s) => s != ""
    case _ => true
  }

  /** A JSON object whose keys are pairwise distinct, as `JSON.parse` produces. */
  predicate UniqueKeys(v: Json) {
    v.Obj? ==> forall i, j :: 0 <= i < j < |v.fields| ==> v.fields[i].0 != v.fields[j].0
  }

  // ---------------------------------------------------------------------
  // Decimal strings: how `'' + n` prints an integer, and which property
  // names are array indices.

  predicate IsDigit(c: char) {
    '0' <= c <= '9'
  }

  predicate AllDigits(s: string) {
    forall i :: 0 <= i < |s| ==> IsDigit(s[i])
  }

  /** A decimal numeral without leading zeros: the form of an array index key. */
  predicate Canonical(s: string) {
    |s| > 0 && AllDigits(s) && (s[0] == '0' ==> |s| == 1)
  }

  function DigitChar(d: nat): (c: char)
    requires d < 10
    ensures IsDigit(c)
  {
    ('0' as int + d) as char
  }

  function DigitValue(c: char): (d: nat)
    requires IsDigit(c)
    ensures d < 10 && DigitChar(d) == c
  {
    c as int - '0' as int
  }

  /** The decimal numeral of `n`. */
  function NatToString(n: nat): (r: string)
    ensures Canonical(r)
  {
    if n < 10 then [DigitChar(n)] else NatToString(n / 10) + [DigitChar(n % 10)]
  }

  /** `'' + i` for an integer `i`. */
  function IntToString(i: int): string {
    if i < 0 then "-" + NatToString(-i) else NatToString(i)
  }

  /** The number a string of digits denotes. */
  function DigitsValue(s: string): nat
    requires AllDigits(s)
  {
    if |s| == 0 then 0 else DigitsValue(s[..|s| - 1]) * 10 + DigitValue(s[|s| - 1])
  }

  /** The array index a property name denotes, if it denotes one. */
  function ParseIndex(k: string): Option<nat> {
    if Canonical(k) then Some(DigitsValue(k)) else None
  }

  lemma {:induction false} ValueOfNatToString(n: nat)
    ensures DigitsValue(NatToString(n)) == n
  {
    var s := NatToString(n);
    if n >= 10 {
      assert s[..|s| - 1] == NatToString(n / 10);
      ValueOfNatToString(n / 10);
    }
  }

  lemma DivModTen(v: nat, d: nat)
    requires d < 10
    ensures (v * 10 + d) / 10 == v && (v * 10 + d) % 10 == d
  {
  }

  lemma {:induction false} NatToStringOfValue(s: string)
    requires Canonical(s)
    ensures NatToString(DigitsValue(s)) == s
  {
    if |s| > 1 {
      var init := s[..|s| - 1];
      assert Canonical(init);
      NatToStringOfValue(init);
      var v := DigitsValue(init);
      var n := DigitsValue(s);
      DivModTen(v, DigitValue(s[|s| - 1]));
      assert n / 10 == v && n % 10 == DigitValue(s[|s| - 1]);
      assert s == init + [s[|s| - 1]];
    } else {
      assert s == [DigitChar(DigitValue(s[0]))];
    }
  }

  /** A property name is the index `n` exactly when it is the numeral of `n`. */
  lemma ParseIndexIff(k: string, n: nat)
    ensures ParseIndex(k) == Some(n) <==> k == NatToString(n)
  {
    if ParseIndex(k) == Some(n) {
      NatToStringOfValue(k);
    }
    if k == NatToString(n) {
      ValueOfNatToString(n);
    }
  }

  lemma NatToStringInjective(m: nat, n: nat)
    ensures NatToString(m) == NatToString(n) ==> m == n
  {
    ValueOfNatToString(m);
    ValueOfNatToString(n);
  }

  // ---------------------------------------------------------------------
  // Object.entries, Object.keys and property reads. Only own properties are
  // modelled; a name found only on a prototype reads as undefined.

  /** `Object.entries(v)` for a value other than null (which throws). */
  function Entries(v: Json): seq<(string, Json)>
    requires !v.Null?
  {
    match v
    case Obj(fs) => fs
    case Arr(xs) => seq(|xs|, i requires 0 <= i < |xs| => (NatToString(i), xs[i]))
    case Str(s) => seq(|s|, i requires 0 <= i < |s| => (NatToString(i), Str([s[i]])))
    case _ => []
  }

  /** `Object.keys(v)` for a value other than null (which throws). */
  function Keys(v: Json): seq<string>
    requires !v.Null?
  {
    var es := Entries(v);
    seq(|es|, i requires 0 <= i < |es| => es[i].0)
  }

  /** The first field named `k`. */
  function Lookup(fs: seq<(string, Json)>, k: string): Slot {
    if |fs| == 0 then Undefined
    else if fs[0].0 == k then Val(fs[0].1)
    else Lookup(fs[1..], k)
  }

  /** `v[k]` for a value other than null (which throws). */
  function Get(v: Json, k: string): Slot
    requires !v.Null?
  {
    match v
    case Obj(fs) => Lookup(fs, k)
    case Arr(xs) =>
      if k == "length" then Val(Num(|xs|))
      else if ParseIndex(k).Some? && ParseIndex(k).value < |xs| then Val(xs[ParseIndex(k).value])
      else Undefined
    case Str(s) =>
      if k == "length" then Val(Num(|s|))
      else if ParseIndex(k).Some? && ParseIndex(k).value < |s| then Val(Str([s[ParseIndex(k).value]]))
      else Undefined
    case _ => Undefined
  }

  lemma {:induction false} LookupOwn(fs: seq<(string, Json)>, j: nat)
    requires j < |fs|
    requires forall a, b :: 0 <= a < b < |fs| ==> fs[a].0 != fs[b].0
    ensures Lookup(fs, fs[j].0) == Val(fs[j].1)
  {
    if j > 0 {
      assert fs[0].0 != fs[j].0;
      var tail := fs[1..];
      assert forall a, b :: 0 <= a < b < |tail| ==> tail[a].0 != tail[b].0 by {
        forall a, b | 0 <= a < b < |tail| ensures tail[a].0 != tail[b].0 {
          assert tail[a] == fs[a + 1] && tail[b] == fs[b + 1];
        }
      }
      LookupOwn(tail, j - 1);
    }
  }

  lemma {:induction false} LookupAbsent(fs: seq<(string, Json)>, k: string)
    requires forall a :: 0 <= a < |fs| ==> fs[a].0 != k
    ensures Lookup(fs, k) == Undefined
  {
    if |fs| > 0 {
      LookupAbsent(fs[1..], k);
    }
  }

  /**
   * Reading one of a value's own keys gives the value `Object.entries`
   * pairs with it, so `Object.keys` with `v[k]` and `Object.entries` agree.
   */
  lemma GetOwnKey(v: Json, j: nat)
    requires !v.Null? && UniqueKeys(v)
    requires j < |Entries(v)|
    ensures Get(v, Keys(v)[j]) == Val(Entries(v)[j].1)
  {
    match v
    case Obj(fs) => LookupOwn(fs, j);
    case Arr(xs) => ParseIndexIff(NatToString(j), j);
    case Str(s) => ParseIndexIff(NatToString(j), j);
    case _ =>
  }

  /** Reading a name that is not a key of an object gives undefined. */
  lemma GetMissingKey(v: Json, k: string)
    requires v.Obj? && k !in Keys(v)
    ensures Get(v, k) == Undefined
  {
    forall a | 0 <= a < |v.fields| ensures v.fields[a].0 != k {
      assert Keys(v)[a] == v.fields[a].0;
    }
    LookupAbsent(v.fields, k);
  }

  // ---------------------------------------------------------------------
  // String conversion, as `'<td>' + v` performs it.

  /**
   * `'' + v` for a value that is not an object or array. The script reaches
   * string concatenation only with such values: containers go through a badge
   * or a nested table first.
   */
  function ToStr(v: Json): string
    requires !IsContainer(v)
  {
    match v
    case Null => "null"
    case Bool(b) => if b then "true" else "false"
    case Num(n) => IntToString(n)
    case Str(s) => s
  }
}
