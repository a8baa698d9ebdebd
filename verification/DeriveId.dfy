/**
 pkg/protocol/protocol.go: `CheckSpec.DeriveID`.  The hashed text is decodable, so two checks share
 an ID exactly when their type, target and parameters agree, whoever created them.
 */
module DeriveId {
  import opened Decimal
  import opened Ids
  import opened Protocol
  import opened Ranking
  import opened Sorting

  /** One length-prefixed field. */
  function Field(v: string): string {
    Natural(|v|) + ":" + v
  }

  function Fields(vs: seq<string>): string {
    if vs == [] then "" else Field(vs[0]) + Fields(vs[1..])
  }

  lemma {:induction false} FieldsAppend(vs: seq<string>, v: string)
    ensures Fields(vs + [v]) == Fields(vs) + Field(v)
  {
    if vs == [] {
      assert Fields([v]) == Field(v) + Fields([]);
    } else {
      assert (vs + [v])[1..] == vs[1..] + [v];
      FieldsAppend(vs[1..], v);
    }
  }

  // ---- reading the fields back ----

  function ColonAt(s: string): nat {
    if s == "" || s[0] == ':' then 0 else 1 + ColonAt(s[1..])
  }

  function ParseFields(s: string): Option<seq<string>> {
    if s == "" then Some([])
    else
      var c := ColonAt(s);
      if c >= |s| || !AllDigits(s[..c]) then None
      else
        var end := c + 1 + Value(s[..c]);
        if end > |s| then None
        else
          var rest := ParseFields(s[end..]);
          if rest.None? then None else Some([s[c + 1..end]] + rest.value)
  }

  lemma {:induction false} ColonAfterDigits(d: string, s: string)
    requires AllDigits(d)
    ensures ColonAt(d + ":" + s) == |d|
  {
    if d != "" {
      assert (d + ":" + s)[0] == d[0];
      assert (d + ":" + s)[1..] == d[1..] + ":" + s;
      ColonAfterDigits(d[1..], s);
    }
  }

  lemma FieldParses(v: string, rest: string)
    ensures ParseFields(Field(v) + rest) ==
      if ParseFields(rest).None? then None else Some([v] + ParseFields(rest).value)
  {
    var d, s := Natural(|v|), Field(v) + rest;
    NaturalRoundTrip(|v|);
    ColonAfterDigits(d, v + rest);
    Slices(d, v, rest);
  }

  lemma Slices(d: string, v: string, rest: string)
    ensures var s := d + ":" + v + rest;
      && s == d + ":" + (v + rest)
      && s[..|d|] == d
      && s[|d| + 1..|d| + 1 + |v|] == v
      && s[|d| + 1 + |v|..] == rest
  {
  }

  /** Whatever bytes the fields hold, colons and digits included, they are read back. */
  lemma {:induction false} FieldsRoundTrip(vs: seq<string>)
    ensures ParseFields(Fields(vs)) == Some(vs)
  {
    if vs != [] {
      FieldsRoundTrip(vs[1..]);
      FieldParses(vs[0], Fields(vs[1..]));
      assert [vs[0]] + vs[1..] == vs;
    }
  }

  // ---- the parameters, in key order ----

  lemma LessTotalOrder()
    ensures StrictTotal(Less)
  {
    LessIsStrictTotal();
  }

  ghost predicate IsKeyOrder(ks: seq<string>, params: map<string, string>) {
    Ordered(Less, ks) && Elements(ks) == params.Keys
  }

  function Pairs(ks: seq<string>, params: map<string, string>): seq<string>
    requires forall k :: k in ks ==> k in params
  {
    if ks == [] then []
    else
      var k := ks[|ks| - 1];
      Pairs(ks[..|ks| - 1], params) + [k, params[k]]
  }

  function FromPairs(vs: seq<string>): map<string, string> {
    if |vs| < 2 then map[] else FromPairs(vs[..|vs| - 2])[vs[|vs| - 2] := vs[|vs| - 1]]
  }

  lemma {:induction false} PairsRoundTrip(ks: seq<string>, params: map<string, string>)
    requires forall k :: k in ks ==> k in params
    ensures FromPairs(Pairs(ks, params)) == map k | k in ks :: params[k]
  {
    if ks != [] {
      var init, k := ks[..|ks| - 1], ks[|ks| - 1];
      PairsRoundTrip(init, params);
      var vs := Pairs(ks, params);
      assert vs[..|vs| - 2] == Pairs(init, params);
      assert forall x :: x in ks <==> x in init || x == k;
    }
  }

  // ---- the text that is hashed ----

  ghost predicate IsPreImage(text: string, s: CheckSpec) {
    exists ks :: IsKeyOrder(ks, s.Params) && text == Fields([s.Type, s.Target] + Pairs(ks, s.Params))
  }

  datatype Content = Content(Type: string, Target: string, Params: map<string, string>)

  function ContentOf(s: CheckSpec): Content {
    Content(s.Type, s.Target, s.Params)
  }

  function Decode(text: string): Option<Content> {
    var vs := ParseFields(text);
    if vs.None? || |vs.value| < 2 then None
    else Some(Content(vs.value[0], vs.value[1], FromPairs(vs.value[2..])))
  }

  /** The type, the target and every parameter are recovered from the text. */
  lemma PreImageDecodes(text: string, s: CheckSpec)
    requires IsPreImage(text, s)
    ensures Decode(text) == Some(ContentOf(s))
  {
    var ks :| IsKeyOrder(ks, s.Params) && text == Fields([s.Type, s.Target] + Pairs(ks, s.Params));
    var vs := [s.Type, s.Target] + Pairs(ks, s.Params);
    FieldsRoundTrip(vs);
    assert vs[2..] == Pairs(ks, s.Params);
    PairsRoundTrip(ks, s.Params);
    assert forall k :: k in ks <==> k in Elements(ks);
    assert (map k | k in ks :: s.Params[k]) == s.Params;
  }

  /** A check has one text, whatever order its parameters are visited in. */
  lemma PreImageUnique(a: string, b: string, s: CheckSpec)
    requires IsPreImage(a, s) && IsPreImage(b, s)
    ensures a == b
  {
    var ks :| IsKeyOrder(ks, s.Params) && a == Fields([s.Type, s.Target] + Pairs(ks, s.Params));
    var js :| IsKeyOrder(js, s.Params) && b == Fields([s.Type, s.Target] + Pairs(js, s.Params));
    LessTotalOrder();
    OrderedUnique(Less, ks, js);
  }

  /** Two checks hash the same text exactly when type, target and parameters agree; ID and interval do not matter. */
  lemma SameTextExactly(a: string, s: CheckSpec, b: string, t: CheckSpec)
    requires IsPreImage(a, s) && IsPreImage(b, t)
    ensures a == b <==> ContentOf(s) == ContentOf(t)
  {
    PreImageDecodes(a, s);
    PreImageDecodes(b, t);
    if ContentOf(s) == ContentOf(t) {
      var ks :| IsKeyOrder(ks, t.Params) && b == Fields([t.Type, t.Target] + Pairs(ks, t.Params));
      assert IsPreImage(b, s);
      PreImageUnique(a, b, s);
    }
  }

  method KeysOf(params: map<string, string>) returns (keys: seq<string>)
    ensures Distinct(keys) && Elements(keys) == params.Keys
  {
    keys := [];
    var rest := params.Keys;
    while rest != {}
      invariant rest <= params.Keys
      invariant Distinct(keys) && Elements(keys) == params.Keys - rest
      decreases |rest|
    {
      var k :| k in rest;
      assert k !in Elements(keys);
      DistinctConcat(keys, [k]);
      keys := keys + [k];
      rest := rest - {k};
    }
  }

  /** The first 16 hexadecimal digits of the SHA-256 digest are left to `digest`. */
  method DeriveID(s: CheckSpec, digest: string -> string) returns (id: string)
    ensures exists text :: IsPreImage(text, s) && id == digest(text)
  {
    var visited := KeysOf(s.Params);
    LessTotalOrder();
    StrictTotalIsWeak(Less);
    var keys := Sort(visited, Less);
    SortedIsOrdered(Less, visited, keys);
    assert forall k :: k in keys <==> k in Elements(keys);
    var b := "";
    assert [] + [s.Type] == [s.Type];
    b := WriteField(b, s.Type, []);
    assert [s.Type] + [s.Target] == [s.Type, s.Target];
    b := WriteField(b, s.Target, [s.Type]);
    b := WriteParams(b, keys, s.Params, [s.Type, s.Target]);
    assert IsPreImage(b, s);
    id := digest(b);
  }

  method WriteParams(b: string, keys: seq<string>, params: map<string, string>, ghost written: seq<string>)
    returns (r: string)
    requires b == Fields(written)
    requires forall k :: k in keys ==> k in params
    ensures r == Fields(written + Pairs(keys, params))
  {
    r := b;
    assert written + Pairs([], params) == written;
    for i := 0 to |keys|
      invariant r == Fields(written + Pairs(keys[..i], params))
    {
      var k := keys[i];
      ghost var before := Pairs(keys[..i], params);
      r := WriteField(r, k, written + before);
      r := WriteField(r, params[k], written + before + [k]);
      assert keys[..i + 1][..i] == keys[..i];
      assert written + before + [k] + [params[k]] == written + (before + [k, params[k]]);
    }
    assert keys[..|keys|] == keys;
  }

  method WriteField(b: string, v: string, ghost written: seq<string>) returns (r: string)
    requires b == Fields(written)
    ensures r == Fields(written + [v])
  {
    r := b + Natural(|v|);
    r := r + ":";
    r := r + v;
    FieldsAppend(written, v);
    assert r == b + Field(v);
  }

  /** Where the digest does not collide, equal IDs mean equal content and conversely. */
  lemma SameIDExactly(digest: string -> string, a: string, s: CheckSpec, b: string, t: CheckSpec)
    requires IsPreImage(a, s) && IsPreImage(b, t)
    requires digest(a) == digest(b) ==> a == b
    ensures digest(a) == digest(b) <==> ContentOf(s) == ContentOf(t)
  {
    SameTextExactly(a, s, b, t);
  }
}
