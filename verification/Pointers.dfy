/** Evaluating pointer text by sections 3 and 4 of RFC 6901, and exactly when a pointer built from
    unescaped tokens is evaluated back to those tokens. The evaluation is the lenient one of the JSON
    library: a `~` that begins no escape, which section 3 calls malformed, stands for itself. */
module Pointers {
  import opened Basics
  import opened Json
  import opened Aliases

  function Split(s: string): (r: seq<string>)
    ensures |r| > 0
  {
    if s == "" then [""]
    else
      var r := Split(s[1..]);
      if s[0] == '/' then [""] + r else [[s[0]] + r[0]] + r[1..]
  }

  /** Replace every `~d` by the character `c`, left to right. */
  function Replace(t: string, d: char, c: char): string {
    if |t| < 2 then t
    else if t[0] == '~' && t[1] == d then [c] + Replace(t[2..], d, c)
    else [t[0]] + Replace(t[1..], d, c)
  }

  function Unescape(t: string): string {
    Replace(Replace(t, '1', '/'), '0', '~')
  }

  function Decode(pointer: string): seq<string> {
    Map(Unescape, Split(pointer)[1..])
  }

  function Pointer(raw: Value, pointer: string): Option<Value> {
    if pointer == "" then Some(raw)
    else if pointer[0] != '/' then None
    else At(raw, Decode(pointer))
  }

  // ---- the condition ----

  predicate Escaped(t: string, d: char) {
    exists i :: 0 <= i < |t| - 1 && t[i] == '~' && t[i + 1] == d
  }

  /** Nothing in the token reads as a separator or as an escape; a `~` that begins none may occur. */
  predicate Plain(t: string) {
    '/' !in t && !Escaped(t, '0') && !Escaped(t, '1')
  }

  lemma {:induction false} ReplaceIdentity(t: string, d: char, c: char)
    ensures |Replace(t, d, c)| <= |t|
    ensures if Escaped(t, d) then |Replace(t, d, c)| < |t| else Replace(t, d, c) == t
  {
    if |t| >= 2 {
      if t[0] == '~' && t[1] == d {
        ReplaceIdentity(t[2..], d, c);
        assert Escaped(t, d);
      } else {
        ReplaceIdentity(t[1..], d, c);
        if i :| 0 <= i < |t| - 1 && t[i] == '~' && t[i + 1] == d {
          assert t[1..][i - 1] == '~' && t[1..][i] == d;
          assert Escaped(t[1..], d);
        }
        if Escaped(t[1..], d) {
          var i :| 0 <= i < |t[1..]| - 1 && t[1..][i] == '~' && t[1..][i + 1] == d;
          assert t[i + 1] == '~' && t[i + 2] == d;
        }
      }
    }
  }

  lemma UnescapeIdentity(t: string)
    ensures Unescape(t) == t <==> !Escaped(t, '0') && !Escaped(t, '1')
  {
    ReplaceIdentity(t, '1', '/');
    ReplaceIdentity(Replace(t, '1', '/'), '0', '~');
  }

  lemma {:induction false} SplitSingle(t: string)
    ensures if '/' in t then |Split(t)| > 1 else Split(t) == [t]
  {
    if t != "" {
      SplitSingle(t[1..]);
      assert t == [t[0]] + t[1..];
    }
  }

  lemma {:induction false} SplitAt(s: string, k: nat)
    requires k < |s| && s[k] == '/'
    ensures Split(s) == Split(s[..k]) + Split(s[k + 1..])
  {
    if k > 0 {
      var rest := s[1..];
      SplitAt(rest, k - 1);
      assert rest[k..] == s[k + 1..] && s[..k][1..] == rest[..k - 1];
      PushFront(s[0], Split(s[..k][1..]), Split(s[k + 1..]));
    }
  }

  lemma PushFront(c: char, front: seq<string>, back: seq<string>)
    requires front != []
    ensures (front + back)[0] == front[0] && (front + back)[1..] == front[1..] + back
    ensures [[c] + front[0]] + (front[1..] + back) == [[c] + front[0]] + front[1..] + back
    ensures [""] + (front + back) == [""] + front + back
  {
  }

  /** Splitting a built pointer gives its tokens back if none holds a slash, else too many. */
  lemma {:induction false} SplitPointerText(ts: seq<string>)
    ensures if forall t <- ts :: '/' !in t then Split(PointerText(ts)) == [""] + ts
            else |Split(PointerText(ts))| > 1 + |ts|
    ensures |Split(PointerText(ts))| >= 1 + |ts|
    ensures ts != [] ==> PointerText(ts) != "" && PointerText(ts)[0] == '/'
  {
    if ts != [] {
      var front, last := ts[..|ts| - 1], ts[|ts| - 1];
      assert ts == front + [last];
      SplitPointerText(front);
      var text, k := PointerText(ts), |PointerText(front)|;
      assert text[..k] == PointerText(front) && text[k + 1..] == last;
      SplitAt(text, k);
      SplitSingle(last);
      assert [""] + ts == [""] + front + [last];
    }
  }

  /** An object nest that only the path `ts` leads through to the end of. */
  function Nest(ts: seq<string>): Value {
    if ts == [] then Null else Object([Field(ts[0], Nest(ts[1..]))])
  }

  lemma {:induction false} NestPath(ts: seq<string>, us: seq<string>)
    ensures At(Nest(ts), us) == Some(Null) <==> us == ts
  {
    if us != [] && ts != [] && us[0] == ts[0] {
      NestPath(ts[1..], us[1..]);
      assert us == [us[0]] + us[1..] && ts == [ts[0]] + ts[1..];
    }
  }

  lemma DecodeIdentity(ts: seq<string>)
    ensures Decode(PointerText(ts)) == ts <==> forall t <- ts :: Plain(t)
  {
    SplitPointerText(ts);
    var us := Decode(PointerText(ts));
    if (forall t <- ts :: '/' !in t) {
      assert Split(PointerText(ts))[1..] == ts;
      forall i | 0 <= i < |ts| ensures us[i] == ts[i] <==> Plain(ts[i]) {
        UnescapeIdentity(ts[i]);
      }
    } else {
      assert |us| > |ts|;
    }
  }

  /** A pointer built from the tokens `ts` leads, in every document, where `ts` leads, exactly when
      every token is plain. */
  lemma PointerLands(ts: seq<string>)
    ensures (forall raw :: Pointer(raw, PointerText(ts)) == At(raw, ts)) <==> (forall t <- ts :: Plain(t))
  {
    if ts != [] {
      SplitPointerText(ts);
      DecodeIdentity(ts);
      var us := Decode(PointerText(ts));
      NestPath(ts, ts);
      NestPath(ts, us);
      assert Pointer(Nest(ts), PointerText(ts)) == At(Nest(ts), us);
    }
  }

  // ---- escapes ----

  /** The token as section 3 of RFC 6901 has it escaped. */
  function Escape(t: string): string {
    if t == "" then ""
    else (if t[0] == '~' then "~0" else if t[0] == '/' then "~1" else [t[0]]) + Escape(t[1..])
  }

  /** Only the tildes escaped. */
  function EscapeTildes(t: string): string {
    if t == "" then "" else (if t[0] == '~' then "~0" else [t[0]]) + EscapeTildes(t[1..])
  }

  lemma {:induction false} SlashesBack(t: string)
    ensures Replace(Escape(t), '1', '/') == EscapeTildes(t)
    ensures Escape(t) != "" ==> Escape(t)[0] != '1' || t[0] == '1'
  {
    if t != "" {
      SlashesBack(t[1..]);
      var e, rest := Escape(t), Escape(t[1..]);
      if t[0] == '~' {
        assert e == "~0" + rest && e[1..] == "0" + rest && e[1..][1..] == rest && e[1] == '0';
        ReplaceHead('0', rest, '1', '/');
      } else if t[0] == '/' {
        assert e == "~1" + rest && e[2..] == rest && e[1] == '1';
      } else {
        ReplaceHead(t[0], rest, '1', '/');
      }
    }
  }

  lemma ReplaceHead(x: char, rest: string, d: char, c: char)
    requires x != '~'
    ensures Replace([x] + rest, d, c) == [x] + Replace(rest, d, c)
  {
    assert ([x] + rest)[1..] == rest;
  }

  lemma {:induction false} TildesBack(t: string)
    ensures Replace(EscapeTildes(t), '0', '~') == t
  {
    if t != "" {
      TildesBack(t[1..]);
      var e, rest := EscapeTildes(t), EscapeTildes(t[1..]);
      if t[0] == '~' {
        assert e == "~0" + rest && e[2..] == rest;
      } else {
        ReplaceHead(t[0], rest, '0', '~');
      }
    }
  }

  /** Unescaping undoes escaping for every token. */
  lemma EscapeRoundTrip(t: string)
    ensures Unescape(Escape(t)) == t
  {
    SlashesBack(t);
    TildesBack(t);
  }
}
