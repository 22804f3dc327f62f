/** JSON values as serde_json holds them without `preserve_order`: an object is a list of fields
    with strictly increasing keys. Printing and parsing a value are taken to be inverse, so a field
    of the program that stores canonical JSON text is modelled by the value itself. */
module Json {
  import opened Basics

  datatype Field = Field(key: string, value: Value)

  /** A number as it is stored: whole, or written with a fraction. `1` and `1.0` are not the same value. */
  datatype Numeral = Whole(i: int) | Fraction(r: real) {
    function Real(): real {
      match this
      case Whole(i) => i as real
      case Fraction(r) => r
    }
  }

  datatype Value =
    | Null
    | Bool(b: bool)
    | Number(n: Numeral)
    | Str(s: string)
    | Array(items: seq<Value>)
    | Object(fields: seq<Field>)
  {
    /** The member `k` of an object; nothing for any other value. */
    function Get(k: string): (r: Option<Value>)
      ensures r.Some? ==> r.value < this
    {
      if Object? then Find(fields, k) else None
    }

    function AsStr(): Option<string> {
      if Str? then Some(s) else None
    }

    function AsBool(): Option<bool> {
      if Bool? then Some(b) else None
    }

    function AsNumber(): Option<real> {
      if Number? then Some(n.Real()) else None
    }

    /** Every object below (and including) this value has strictly increasing keys. */
    ghost predicate WellFormed() {
      match this
      case Array(items) => forall x <- items :: x.WellFormed()
      case Object(fields) => KeySorted(fields) && forall f <- fields :: f.value.WellFormed()
      case _ => true
    }
  }

  ghost predicate KeySorted(fields: seq<Field>) {
    forall i, j :: 0 <= i < j < |fields| ==> StringLess(fields[i].key, fields[j].key)
  }

  function Find(fields: seq<Field>, k: string): (r: Option<Value>)
    ensures r.Some? ==> exists i :: 0 <= i < |fields| && fields[i] == Field(k, r.value)
    ensures r.None? ==> forall i :: 0 <= i < |fields| ==> fields[i].key != k
  {
    if fields == [] then None
    else if fields[0].key == k then Some(fields[0].value)
    else
      var r := Find(fields[1..], k);
      assert r.Some? ==> exists i :: 1 <= i < |fields| && fields[i] == Field(k, r.value) by {
        if r.Some? {
          var i :| 0 <= i < |fields[1..]| && fields[1..][i] == Field(k, r.value);
          assert fields[i + 1] == Field(k, r.value);
        }
      }
      r
  }

  function StrField(v: Value, k: string): Option<string> {
    match v.Get(k)
    case Some(x) => x.AsStr()
    case None => None
  }

  function BoolField(v: Value, k: string): Option<bool> {
    match v.Get(k)
    case Some(x) => x.AsBool()
    case None => None
  }

  function NumberField(v: Value, k: string): Option<real> {
    match v.Get(k)
    case Some(x) => x.AsNumber()
    case None => None
  }

  function GetOr<T>(o: Option<T>, default: T): T {
    if o.Some? then o.value else default
  }

  // ---- updating an object ----

  /** Set the member `k`, replacing it if present, else inserting it at its place. */
  function SetMember(fields: seq<Field>, k: string, v: Value): seq<Field> {
    if fields == [] || StringLess(k, fields[0].key) then [Field(k, v)] + fields
    else if fields[0].key == k then [Field(k, v)] + fields[1..]
    else [fields[0]] + SetMember(fields[1..], k, v)
  }

  function DropMember(fields: seq<Field>, k: string): seq<Field> {
    if fields == [] then []
    else if fields[0].key == k then fields[1..]
    else [fields[0]] + DropMember(fields[1..], k)
  }

  lemma {:induction false} DropKeeps(fields: seq<Field>, k: string)
    requires KeySorted(fields)
    ensures KeySorted(DropMember(fields, k))
    ensures forall f :: f in DropMember(fields, k) <==> f in fields && f.key != k
  {
    hide StringLess;
    StringOrder();
    if fields != [] {
      assert fields == [fields[0]] + fields[1..];
      assert forall f <- fields[1..] :: StringLess(fields[0].key, f.key);
      if fields[0].key != k {
        DropKeeps(fields[1..], k);
        forall i, j | 0 <= i < j < |DropMember(fields, k)|
          ensures StringLess(DropMember(fields, k)[i].key, DropMember(fields, k)[j].key)
        {
          assert DropMember(fields, k)[j] in DropMember(fields[1..], k);
        }
      }
    }
  }

  lemma {:induction false} FindDropped(fields: seq<Field>, k: string, k': string)
    requires KeySorted(fields)
    ensures Find(DropMember(fields, k), k') == if k' == k then None else Find(fields, k')
  {
    hide StringLess;
    DropKeeps(fields, k);
    if fields != [] && fields[0].key != k {
      FindDropped(fields[1..], k, k');
    } else if fields != [] && k' == k {
      if Find(fields[1..], k).Some? {
        StringOrder();
      }
    }
  }

  /** Taking a member out before setting it makes no difference. */
  lemma {:induction false} SetDropped(fields: seq<Field>, k: string, v: Value)
    requires KeySorted(fields)
    ensures SetMember(DropMember(fields, k), k, v) == SetMember(fields, k, v)
  {
    hide StringLess;
    StringOrder();
    if fields != [] {
      if fields[0].key == k {
        if |fields| > 1 {
          assert StringLess(k, fields[1].key);
        }
      } else if StringLess(k, fields[0].key) {
        DropAbsent(fields, k);
      } else {
        SetDropped(fields[1..], k, v);
        assert DropMember(fields, k)[1..] == DropMember(fields[1..], k);
      }
    }
  }

  lemma {:induction false} DropAbsent(fields: seq<Field>, k: string)
    requires forall f <- fields :: f.key != k
    ensures DropMember(fields, k) == fields
  {
    if fields != [] {
      DropAbsent(fields[1..], k);
    }
  }

  /** Setting a member to the value it has changes nothing, and setting it to another shows. */
  lemma {:induction false} SetSame(fields: seq<Field>, k: string, v: Value)
    requires KeySorted(fields)
    ensures SetMember(fields, k, v) == fields <==> Find(fields, k) == Some(v)
    ensures Find(SetMember(fields, k, v), k) == Some(v)
  {
    hide StringLess;
    StringOrder();
    if fields != [] {
      if StringLess(k, fields[0].key) {
        assert forall f <- fields :: f.key != k;
        assert |SetMember(fields, k, v)| == |fields| + 1;
      } else if fields[0].key == k {
        assert SetMember(fields, k, v)[0] == Field(k, v);
        assert fields == [fields[0]] + fields[1..];
      } else {
        SetSame(fields[1..], k, v);
        assert fields == [fields[0]] + fields[1..];
        assert SetMember(fields, k, v)[1..] == SetMember(fields[1..], k, v);
      }
    }
  }

  lemma {:induction false} SetKeeps(fields: seq<Field>, k: string, v: Value)
    requires KeySorted(fields)
    ensures KeySorted(SetMember(fields, k, v))
    ensures forall f <- SetMember(fields, k, v) :: f.key == k || f in fields
  {
    hide StringLess;
    StringOrder();
    if fields != [] && !StringLess(k, fields[0].key) && fields[0].key != k {
      SetKeeps(fields[1..], k, v);
      var rest := SetMember(fields[1..], k, v);
      forall i, j | 0 <= i < j < |SetMember(fields, k, v)|
        ensures StringLess(SetMember(fields, k, v)[i].key, SetMember(fields, k, v)[j].key)
      {
        assert rest[j - 1] in rest;
      }
    }
  }

  /** Reading a member of an object after setting one. */
  lemma {:induction false} FindSet(fields: seq<Field>, k: string, v: Value, k': string)
    requires KeySorted(fields)
    ensures Find(SetMember(fields, k, v), k') == if k' == k then Some(v) else Find(fields, k')
  {
    hide StringLess;
    StringOrder();
    if fields != [] && !StringLess(k, fields[0].key) && fields[0].key != k {
      FindSet(fields[1..], k, v, k');
    }
  }

  /** An object from a list of members set one after the other. */
  function Members(members: seq<(string, Value)>): seq<Field> {
    if members == [] then []
    else SetMember(Members(members[..|members| - 1]), members[|members| - 1].0, members[|members| - 1].1)
  }

  /** The member last set under `k`. */
  function LastSet(members: seq<(string, Value)>, k: string): Option<Value> {
    if members == [] then None
    else if members[|members| - 1].0 == k then Some(members[|members| - 1].1)
    else LastSet(members[..|members| - 1], k)
  }

  lemma {:induction false} MembersFind(members: seq<(string, Value)>, k: string)
    ensures KeySorted(Members(members)) && Find(Members(members), k) == LastSet(members, k)
  {
    hide StringLess;
    if members != [] {
      var front, last := members[..|members| - 1], members[|members| - 1];
      MembersFind(front, k);
      SetKeeps(Members(front), last.0, last.1);
      FindSet(Members(front), last.0, last.1, k);
    }
  }
}
