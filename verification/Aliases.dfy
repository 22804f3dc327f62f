/** Finding the variable bindings of a node: every alias below a `boundVariables` object is reported
    under the JSON pointer of the property it resolves at, and those pointers are evaluated again
    when variable values are inferred. */
module Aliases {
  import opened Basics
  import opened Json

  const BOUND := "boundVariables"

  // ---- decimal array indexes ----

  function Digit(d: nat): char
    requires d < 10
  {
    ("0123456789")[d]
  }

  function Decimal(n: nat): string {
    if n < 10 then [Digit(n)] else Decimal(n / 10) + [Digit(n % 10)]
  }

  predicate IsDigit(c: char) {
    '0' <= c <= '9'
  }

  function DigitValue(c: char): (d: nat)
    requires IsDigit(c)
    ensures d < 10
  {
    c as int - '0' as int
  }

  function DigitsValue(s: string): nat
    requires forall c <- s :: IsDigit(c)
  {
    if s == [] then 0 else 10 * DigitsValue(s[..|s| - 1]) + DigitValue(s[|s| - 1])
  }

  /** An array index token: decimal digits without a leading zero. */
  function ParseIndex(t: string): Option<nat> {
    if t == [] || (exists c <- t :: !IsDigit(c)) || (t[0] == '0' && |t| > 1) then None
    else Some(DigitsValue(t))
  }

  lemma {:induction false} DecimalParses(n: nat)
    ensures ParseIndex(Decimal(n)) == Some(n)
    ensures n > 0 ==> Decimal(n)[0] != '0'
  {
    assert forall d: nat :: d < 10 ==> IsDigit(Digit(d)) && DigitValue(Digit(d)) == d;
    if n >= 10 {
      DecimalParses(n / 10);
      var t := Decimal(n);
      assert t[..|t| - 1] == Decimal(n / 10);
      assert t[0] == Decimal(n / 10)[0];
      assert forall c <- t :: IsDigit(c);
      assert DigitsValue(t) == 10 * (n / 10) + n % 10;
    } else {
      assert DigitsValue(Decimal(n)) == n;
    }
  }

  lemma {:induction false} ParsesToDecimal(t: string)
    requires ParseIndex(t).Some?
    ensures t == Decimal(ParseIndex(t).value)
  {
    var front, last := t[..|t| - 1], t[|t| - 1];
    assert t == front + [last] && Digit(DigitValue(last)) == last;
    if |t| > 1 {
      assert front[0] == t[0];
      ParsesToDecimal(front);
      PositiveValue(front);
      DecimalExtends(DigitsValue(front), DigitValue(last));
    } else {
      assert t == [t[0]] && t[..0] == [];
      assert DigitsValue(t) == DigitValue(t[0]);
    }
  }

  lemma DecimalExtends(n: nat, d: nat)
    requires n > 0 && d < 10
    ensures Decimal(10 * n + d) == Decimal(n) + [Digit(d)]
  {
    assert (10 * n + d) / 10 == n && (10 * n + d) % 10 == d;
  }

  lemma {:induction false} PositiveValue(t: string)
    requires ParseIndex(t).Some? && t[0] != '0'
    ensures ParseIndex(t).value > 0
  {
    if |t| > 1 {
      assert t[..|t| - 1][0] == t[0];
      PositiveValue(t[..|t| - 1]);
    }
  }

  // ---- token paths ----

  /** The value one reference token leads to, as section 4 of RFC 6901 evaluates it. */
  function Step(v: Value, token: string): (r: Option<Value>)
    ensures r.Some? ==> r.value < v
  {
    match v
    case Object(fields) => Find(fields, token)
    case Array(items) =>
      (match ParseIndex(token)
       case Some(i) => if i < |items| then Some(items[i]) else None
       case None => None)
    case _ => None
  }

  function At(v: Value, tokens: seq<string>): Option<Value> {
    if tokens == [] then Some(v) else
      match Step(v, tokens[0])
      case Some(x) => At(x, tokens[1..])
      case None => None
  }

  /** The pointer text built for a token path; keys are joined unescaped. */
  function PointerText(tokens: seq<string>): string {
    if tokens == [] then "" else PointerText(tokens[..|tokens| - 1]) + "/" + tokens[|tokens| - 1]
  }

  // ---- the scan ----

  /** The id a value is an alias of: both its `type` and its `id` must be texts. */
  function AliasId(v: Value): Option<string> {
    if v.Object? && StrField(v, "type") == Some("VARIABLE_ALIAS") then StrField(v, "id") else None
  }

  lemma AliasIdIs(v: Value, id: string)
    ensures AliasId(v) == Some(id) <==> v.Get("type") == Some(Str("VARIABLE_ALIAS")) && v.Get("id") == Some(Str(id))
  {
    hide Find;
  }

  type Binding = (string, string)  // pointer, variable id

  /** The bindings found below a `boundVariables` value, in visiting order. */
  function AliasesBelow(v: Value, path: string): seq<Binding>
    decreases v, 1, 0
  {
    if AliasId(v).Some? then [(path, AliasId(v).value)] else AliasesFrom(v, path, 0)
  }

  function AliasesFrom(v: Value, path: string, i: nat): seq<Binding>
    decreases v, 0, Arity(v) - i
  {
    if i >= Arity(v) then []
    else AliasesBelow(Member(v, i).value, path + "/" + Member(v, i).key) + AliasesFrom(v, path, i + 1)
  }

  function ScanBelow(v: Value, path: string): seq<Binding>
    decreases v, 1, 0
  {
    ScanFrom(v, path, 0)
  }

  function ScanFrom(v: Value, path: string, i: nat): seq<Binding>
    decreases v, 0, Arity(v) - i, 1
  {
    if i >= Arity(v) then [] else ScanMember(v, path, i) + ScanFrom(v, path, i + 1)
  }

  function ScanMember(v: Value, path: string, i: nat): seq<Binding>
    requires i < Arity(v)
    decreases v, 0, Arity(v) - i, 0
  {
    var m := Member(v, i);
    if v.Object? && m.key == BOUND then AliasesBelow(m.value, path) else ScanBelow(m.value, path + "/" + m.key)
  }

  /** How many members an object or array has, and the i-th of them under its token. */
  function Arity(v: Value): (n: int)
    ensures n >= 0
  {
    match v
    case Object(fields) => |fields|
    case Array(items) => |items|
    case _ => 0
  }

  function Member(v: Value, i: nat): (f: Field)
    requires i < Arity(v)
    ensures f.value < v
  {
    match v
    case Object(fields) => fields[i]
    case Array(items) => Field(Decimal(i), items[i])
  }

  method CollectAliases(v: Value, path: string, out: seq<Binding>) returns (r: seq<Binding>)
    ensures r == out + AliasesBelow(v, path)
    decreases v, 1
  {
    hide AliasId, StrField, Value.Get, Decimal;
    if AliasId(v).Some? {
      return out + [(path, AliasId(v).value)];
    }
    r := out;
    for i := 0 to Arity(v)
      invariant r + AliasesFrom(v, path, i) == out + AliasesFrom(v, path, 0)
    {
      var m := Member(v, i);
      ghost var before := r;
      r := CollectAliases(m.value, path + "/" + m.key, r);
      assert r + AliasesFrom(v, path, i + 1) == before + AliasesFrom(v, path, i);
    }
  }

  method ScanBv(v: Value, path: string, out: seq<Binding>) returns (r: seq<Binding>)
    ensures r == out + ScanBelow(v, path)
    decreases v, 1
  {
    r := out;
    for i := 0 to Arity(v)
      invariant r + ScanFrom(v, path, i) == out + ScanFrom(v, path, 0)
    {
      var m := Member(v, i);
      ghost var before, rest := r, ScanFrom(v, path, i + 1);
      if v.Object? && m.key == BOUND {
        r := CollectAliases(m.value, path, r);
      } else {
        r := ScanBv(m.value, path + "/" + m.key, r);
      }
      assert r == before + ScanMember(v, path, i);
      assert r + rest == before + (ScanMember(v, path, i) + rest);
    }
  }

  function BoundVariables(raw: Value): seq<Binding> {
    SortedPairs(Elements(ScanBelow(raw, "")))
  }

  /** The bindings of one node, sorted and without repeats. */
  method ScanBoundVariables(raw: Value) returns (r: seq<Binding>)
    ensures r == BoundVariables(raw)
  {
    r := ScanBv(raw, "", []);
    assert r == ScanBelow(raw, "");
    r := SortedPairs(Elements(r));
  }
}
