/** JavaScript values as the pages and the server exchange them: the JSON a reply
    decodes to, plus `undefined`, with the coercions the code applies to them
    (truthiness, `Array.prototype.join`, object spread, property reads). */
module JsValues {
  import opened Optional
  import opened JsText

  /** A number is carried by its canonical `Number.prototype.toString` text, which is
      all the modelled code observes of it (truthiness and `join`). */
  datatype Val =
    | Undefined
    | Null
    | Bool(b: bool)
    | Num(repr: string)
    | Str(s: string)
    | Arr(items: seq<Val>)
    | Obj(fields: map<string, Val>)

  /** JavaScript truthiness: `undefined`, `null`, `false`, `0`, `NaN` and `""` are falsy. */
  predicate Truthy(v: Val) {
    match v
    case Undefined => false
    case Null => false
    case Bool(b) => b
    case Num(r) => r != "0" && r != "NaN"
    case Str(s) => s != ""
    case Arr(_) => true
    case Obj(_) => true
  }

  /** `a || b`. */
  function Or(a: Val, b: Val): Val {
    if Truthy(a) then a else b
  }

  /** Reading a key of an object: `undefined` when the key is absent. */
  function Get(o: map<string, Val>, k: string): Val {
    if k in o then o[k] else Undefined
  }

  /** `v.k` for a key that no built-in prototype defines: a TypeError (None) when `v`
      is `null` or `undefined`, the field of an object, otherwise `undefined`. */
  function Prop(v: Val, k: string): Option<Val> {
    match v
    case Undefined => None
    case Null => None
    case Obj(m) => Some(Get(m, k))
    case _ => Some(Undefined)
  }

  /** The string `Array.prototype.join` puts in place of one element. */
  function ElemString(v: Val): string {
    match v
    case Undefined => ""
    case Null => ""
    case Bool(b) => if b then "true" else "false"
    case Num(r) => r
    case Str(s) => s
    case Arr(xs) => Join(seq(|xs|, i requires 0 <= i < |xs| => ElemString(xs[i])), ",")
    case Obj(_) => "[object Object]"
  }

  /** `xs.join(sep)`. */
  function JoinVals(xs: seq<Val>, sep: string): string {
    Join(seq(|xs|, i requires 0 <= i < |xs| => ElemString(xs[i])), sep)
  }

  /** An array of strings. */
  function Strs(xs: seq<string>): (vs: seq<Val>)
    ensures |vs| == |xs| && forall i :: 0 <= i < |xs| ==> vs[i] == Str(xs[i])
  {
    seq(|xs|, i requires 0 <= i < |xs| => Str(xs[i]))
  }

  /** Joining an array of strings is joining the strings themselves. */
  lemma JoinValsOfStrings(xs: seq<string>, sep: string)
    ensures JoinVals(Strs(xs), sep) == Join(xs, sep)
  {
    var vs := Strs(xs);
    assert seq(|vs|, i requires 0 <= i < |vs| => ElemString(vs[i])) == xs;
  }

  function DigitChar(d: nat): char
    requires d < 10
  {
    ('0' as int + d) as char
  }

  /** The decimal text of a natural number: the key JavaScript gives an index. */
  function NatToString(n: nat): (r: string)
    ensures |r| >= 1
    ensures n >= 10 ==> |r| >= 2
  {
    if n < 10 then [DigitChar(n)] else NatToString(n / 10) + [DigitChar(n % 10)]
  }

  /** Different indices have different keys. */
  lemma {:induction false} NatToStringInjective(m: nat, n: nat)
    ensures NatToString(m) == NatToString(n) ==> m == n
  {
    if NatToString(m) == NatToString(n) {
      if m >= 10 && n >= 10 {
        var sm, sn := NatToString(m), NatToString(n);
        assert sm[|sm| - 1] == DigitChar(m % 10) && sn[|sn| - 1] == DigitChar(n % 10);
        assert sm[..|sm| - 1] == NatToString(m / 10);
        assert sn[..|sn| - 1] == NatToString(n / 10);
        NatToStringInjective(m / 10, n / 10);
      }
    }
  }

  /** The own enumerable properties that object spread `{...v}` copies out of `v`:
      an object's fields, a string's or an array's elements under their index keys,
      and nothing for any other value. */
  function Spread(v: Val): map<string, Val> {
    match v
    case Obj(m) => m
    case Str(s) =>
      forall i: nat, j: nat | NatToString(i) == NatToString(j) ensures i == j {
        NatToStringInjective(i, j);
      }
      map i: nat | i < |s| :: NatToString(i) := Str([s[i]])
    case Arr(xs) =>
      forall i: nat, j: nat | NatToString(i) == NatToString(j) ensures i == j {
        NatToStringInjective(i, j);
      }
      map i: nat | i < |xs| :: NatToString(i) := xs[i]
    case _ => map[]
  }

  /** `{...prev, ...extra}`: every key of `extra` takes its value from `extra`, every
      other key of `prev` keeps its value, and no other key appears. */
  function Overlay(prev: map<string, Val>, extra: map<string, Val>): (r: map<string, Val>)
    ensures r.Keys == prev.Keys + extra.Keys
    ensures forall k :: k in extra ==> r[k] == extra[k]
    ensures forall k :: k in prev && k !in extra ==> r[k] == prev[k]
  {
    prev + extra
  }

  /** Overlaying the same keys twice changes nothing more. */
  lemma OverlayIdempotent(prev: map<string, Val>, extra: map<string, Val>)
    ensures Overlay(Overlay(prev, extra), extra) == Overlay(prev, extra)
  {
  }
}
