/** What the binding scan finds, said without the scan, and where its pointers lead. */
module AliasSites {
  import opened Basics
  import opened Json
  import opened Aliases

  // ---- members and reference tokens ----

  lemma {:induction false} FindUnique(fields: seq<Field>, i: nat)
    requires KeySorted(fields) && i < |fields|
    ensures Find(fields, fields[i].key) == Some(fields[i].value)
  {
    hide StringLess;
    StringOrder();
    if i > 0 {
      assert StringLess(fields[0].key, fields[i].key);
      FindUnique(fields[1..], i - 1);
    }
  }

  /** A reference token leads exactly to the member that carries it. */
  lemma StepMember(v: Value, token: string, x: Value)
    requires v.WellFormed()
    ensures Step(v, token) == Some(x) <==> exists i: nat :: i < Arity(v) && Member(v, i) == Field(token, x)
  {
    match v
    case Object(fields) =>
      if i: nat :| i < |fields| && Member(v, i) == Field(token, x) {
        FindUnique(fields, i);
      }
      if Step(v, token) == Some(x) {
        var i :| 0 <= i < |fields| && fields[i] == Field(token, x);
        assert Member(v, i) == Field(token, x);
      }
    case Array(items) =>
      if i: nat :| i < |items| && Member(v, i) == Field(token, x) {
        DecimalParses(i);
      }
      if Step(v, token) == Some(x) {
        ParsesToDecimal(token);
        assert Member(v, ParseIndex(token).value) == Field(token, x);
      }
    case _ =>
  }

  lemma MemberSteps(v: Value, i: nat)
    requires v.WellFormed() && i < Arity(v)
    ensures Step(v, Member(v, i).key) == Some(Member(v, i).value)
    ensures Member(v, i).value.WellFormed()
  {
    StepMember(v, Member(v, i).key, Member(v, i).value);
  }

  // ---- the declarative relation ----

  /** `id` is aliased at the end of the path `q` below `v`, with no alias on the way there. */
  ghost predicate AliasAt(v: Value, q: seq<string>, id: string) {
    && At(v, q).Some? && AliasId(At(v, q).value) == Some(id)
    && forall k :: 0 <= k < |q| && At(v, q[..k]).Some? ==> AliasId(At(v, q[..k]).value).None?
  }

  /** Below the object at path `p`, itself not inside bindings, the path `q` of its
      `boundVariables` ends in an alias of `id`. */
  ghost predicate Site(v: Value, p: seq<string>, q: seq<string>, id: string) {
    && "boundVariables" !in p
    && At(v, p).Some? && At(v, p).value.Object?
    && Find(At(v, p).value.fields, "boundVariables").Some?
    && AliasAt(Find(At(v, p).value.fields, "boundVariables").value, q, id)
  }

  lemma AliasAtUnfold(v: Value, q: seq<string>, id: string)
    requires q != []
    ensures AliasAt(v, q, id) <==>
      AliasId(v).None? && Step(v, q[0]).Some? && AliasAt(Step(v, q[0]).value, q[1..], id)
  {
    forall k | 0 < k <= |q| ensures Step(v, q[0]).Some? ==> At(v, q[..k]) == At(Step(v, q[0]).value, q[1..][..k - 1]) {
      assert q[..k][0] == q[0] && q[..k][1..] == q[1..][..k - 1];
    }
    assert q[..|q|] == q && q[1..][..|q| - 1] == q[1..];
    assert q[..0] == [] && At(v, []) == Some(v);
    if AliasAt(v, q, id) {
      assert At(v, q[..0]).Some?;
      forall k | 0 <= k < |q[1..]| && At(Step(v, q[0]).value, q[1..][..k]).Some?
        ensures AliasId(At(Step(v, q[0]).value, q[1..][..k]).value).None?
      {
        assert At(v, q[..k + 1]) == At(Step(v, q[0]).value, q[1..][..k]);
      }
    }
    if AliasId(v).None? && Step(v, q[0]).Some? && AliasAt(Step(v, q[0]).value, q[1..], id) {
      forall k | 0 <= k < |q| && At(v, q[..k]).Some? ensures AliasId(At(v, q[..k]).value).None? {
        if k > 0 {
          assert At(v, q[..k]) == At(Step(v, q[0]).value, q[1..][..k - 1]);
        }
      }
    }
  }

  lemma PointerTextStep(pre: seq<string>, t: string)
    ensures PointerText(pre + [t]) == PointerText(pre) + "/" + t
  {
    assert (pre + [t])[..|pre|] == pre;
  }

  // ---- the scan finds exactly the sites ----

  lemma {:induction false} FromMember(v: Value, path: string, i: nat, b: Binding) returns (j: nat)
    requires b in AliasesFrom(v, path, i)
    ensures i <= j < Arity(v) && b in AliasesBelow(Member(v, j).value, path + "/" + Member(v, j).key)
    decreases Arity(v) - i
  {
    if b in AliasesBelow(Member(v, i).value, path + "/" + Member(v, i).key) {
      j := i;
    } else {
      j := FromMember(v, path, i + 1, b);
    }
  }

  lemma {:induction false} MemberFrom(v: Value, path: string, i: nat, j: nat, b: Binding)
    requires i <= j < Arity(v) && b in AliasesBelow(Member(v, j).value, path + "/" + Member(v, j).key)
    ensures b in AliasesFrom(v, path, i)
    decreases Arity(v) - i
  {
    if i < j {
      MemberFrom(v, path, i + 1, j, b);
    }
  }

  lemma {:induction false} ScannedMember(v: Value, path: string, i: nat, b: Binding) returns (j: nat)
    requires b in ScanFrom(v, path, i)
    ensures i <= j < Arity(v) && b in ScanMember(v, path, j)
    decreases Arity(v) - i
  {
    if b in ScanMember(v, path, i) {
      j := i;
    } else {
      j := ScannedMember(v, path, i + 1, b);
    }
  }

  lemma {:induction false} MemberScanned(v: Value, path: string, i: nat, j: nat, b: Binding)
    requires i <= j < Arity(v) && b in ScanMember(v, path, j)
    ensures b in ScanFrom(v, path, i)
    decreases Arity(v) - i
  {
    if i < j {
      MemberScanned(v, path, i + 1, j, b);
    }
  }

  lemma BelowCases(v: Value, path: string, b: Binding)
    ensures b in AliasesBelow(v, path) <==>
      if AliasId(v).Some? then b == (path, AliasId(v).value) else b in AliasesFrom(v, path, 0)
  {
  }

  lemma AliasAtHere(v: Value, id: string)
    ensures AliasAt(v, [], id) <==> AliasId(v) == Some(id)
  {
  }

  lemma {:induction false} AliasFoundBelow(v: Value, pre: seq<string>, b: Binding) returns (q: seq<string>)
    requires v.WellFormed() && b in AliasesBelow(v, PointerText(pre))
    ensures AliasAt(v, q, b.1) && b.0 == PointerText(pre + q)
    decreases v
  {
    hide *;
    BelowCases(v, PointerText(pre), b);
    if AliasId(v).Some? {
      q := [];
      AliasAtHere(v, b.1);
      assert pre + q == pre;
    } else {
      var j := FromMember(v, PointerText(pre), 0, b);
      var m := Member(v, j);
      MemberSteps(v, j);
      PointerTextStep(pre, m.key);
      var rest := AliasFoundBelow(m.value, pre + [m.key], b);
      q := [m.key] + rest;
      assert q[1..] == rest && pre + q == pre + [m.key] + rest;
      AliasAtUnfold(v, q, b.1);
    }
  }

  lemma {:induction false} AliasIsFound(v: Value, pre: seq<string>, q: seq<string>, id: string)
    requires v.WellFormed() && AliasAt(v, q, id)
    ensures (PointerText(pre + q), id) in AliasesBelow(v, PointerText(pre))
    decreases v
  {
    hide *;
    var b := (PointerText(pre + q), id);
    BelowCases(v, PointerText(pre), b);
    if q == [] {
      AliasAtHere(v, id);
      assert pre + q == pre;
    } else {
      AliasAtUnfold(v, q, id);
      var x := Step(v, q[0]).value;
      StepMember(v, q[0], x);
      var j: nat :| j < Arity(v) && Member(v, j) == Field(q[0], x);
      MemberSteps(v, j);
      AliasIsFound(x, pre + [q[0]], q[1..], id);
      assert pre + q == pre + [q[0]] + q[1..];
      PointerTextStep(pre, q[0]);
      MemberFrom(v, PointerText(pre), 0, j, b);
    }
  }

  lemma SiteHere(v: Value, q: seq<string>, id: string)
    ensures Site(v, [], q, id) <==> v.Object? && Step(v, BOUND).Some? && AliasAt(Step(v, BOUND).value, q, id)
  {
    assert At(v, []) == Some(v);
  }

  lemma SiteUnfold(v: Value, p: seq<string>, q: seq<string>, id: string)
    requires p != []
    ensures Site(v, p, q, id) <==> p[0] != BOUND && Step(v, p[0]).Some? && Site(Step(v, p[0]).value, p[1..], q, id)
  {
    assert p == [p[0]] + p[1..];
  }

  /** The token `boundVariables` never names an array element. */
  lemma ScanMemberCases(v: Value, pre: seq<string>, i: nat)
    requires i < Arity(v)
    ensures var m := Member(v, i);
      if v.Object? && m.key == BOUND then ScanMember(v, PointerText(pre), i) == AliasesBelow(m.value, PointerText(pre))
      else m.key != BOUND && ScanMember(v, PointerText(pre), i) == ScanBelow(m.value, PointerText(pre + [m.key]))
  {
    PointerTextStep(pre, Member(v, i).key);
    if v.Array? {
      DecimalParses(i);
      assert BOUND[0] == 'b' && !IsDigit(BOUND[0]);
    }
  }

  lemma Reassociate(pre: seq<string>, t: string, p: seq<string>, q: seq<string>)
    ensures pre + ([t] + p) + q == (pre + [t]) + p + q
    ensures ([t] + p)[1..] == p && pre + [] + q == pre + q
  {
  }

  lemma ScanBelowIs(v: Value, path: string)
    ensures ScanBelow(v, path) == ScanFrom(v, path, 0)
  {
  }

  lemma {:induction false} SiteScanned(v: Value, pre: seq<string>, b: Binding) returns (p: seq<string>, q: seq<string>)
    requires v.WellFormed() && b in ScanBelow(v, PointerText(pre))
    ensures Site(v, p, q, b.1) && b.0 == PointerText(pre + p + q)
    decreases v
  {
    hide *;
    ScanBelowIs(v, PointerText(pre));
    var j := ScannedMember(v, PointerText(pre), 0, b);
    var m := Member(v, j);
    MemberSteps(v, j);
    ScanMemberCases(v, pre, j);
    if v.Object? && m.key == BOUND {
      p := [];
      q := AliasFoundBelow(m.value, pre, b);
      SiteHere(v, q, b.1);
      Reassociate(pre, "", [], q);
    } else {
      var rest, below := SiteScanned(m.value, pre + [m.key], b);
      Reassociate(pre, m.key, rest, below);
      p, q := [m.key] + rest, below;
      SiteUnfold(v, p, q, b.1);
    }
  }

  lemma {:induction false} SiteIsScanned(v: Value, pre: seq<string>, p: seq<string>, q: seq<string>, id: string)
    requires v.WellFormed() && Site(v, p, q, id)
    ensures (PointerText(pre + p + q), id) in ScanBelow(v, PointerText(pre))
    decreases v
  {
    hide *;
    var b := (PointerText(pre + p + q), id);
    var token := if p == [] then BOUND else p[0];
    SiteHere(v, q, id);
    if p != [] {
      SiteUnfold(v, p, q, id);
    }
    var x := Step(v, token).value;
    StepMember(v, token, x);
    var j: nat :| j < Arity(v) && Member(v, j) == Field(token, x);
    MemberSteps(v, j);
    ScanMemberCases(v, pre, j);
    if p == [] {
      AliasIsFound(x, pre, q, id);
      Reassociate(pre, "", [], q);
    } else {
      SiteIsScanned(x, pre + [token], p[1..], q, id);
      Reassociate(pre, token, p[1..], q);
      assert [token] + p[1..] == p;
    }
    ScanBelowIs(v, PointerText(pre));
    MemberScanned(v, PointerText(pre), 0, j, b);
  }

  lemma BoundIsScanned(raw: Value, b: Binding)
    ensures Increasing(PairLess, BoundVariables(raw))
    ensures b in BoundVariables(raw) <==> b in ScanBelow(raw, PointerText([]))
  {
    hide SortedPairs, PairLess, ScanBelow;
    assert b in BoundVariables(raw) <==> b in Elements(BoundVariables(raw));
  }

  /** The scan's result is strictly sorted and holds exactly the pairs of the site relation. */
  lemma ScanIsSites(raw: Value, pointer: string, id: string)
    requires raw.WellFormed()
    ensures Increasing(PairLess, BoundVariables(raw))
    ensures (pointer, id) in BoundVariables(raw) <==>
      exists p, q :: Site(raw, p, q, id) && pointer == PointerText(p + q)
  {
    hide *;
    var b := (pointer, id);
    BoundIsScanned(raw, b);
    if b in ScanBelow(raw, PointerText([])) {
      var p, q := SiteScanned(raw, [], b);
      assert [] + p + q == p + q;
    }
    if p, q :| Site(raw, p, q, id) && pointer == PointerText(p + q) {
      SiteIsScanned(raw, [], p, q, id);
      assert [] + p + q == p + q;
    }
  }
}
