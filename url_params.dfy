/** `urlParamsDecode` and `urlParamsEncode` of web/client/scripts/util.js:
    the conversion between a URL query (or fragment) and a dictionary of
    parameters. `decodeURIComponent` and `encodeURIComponent` are passed in
    as the functions `dec` and `enc`. */
module UrlParams {
  import opened Js

  /** The query without one leading `#` or `?`. */
  function Query(hash: string): (r: string)
    ensures r == hash || (hash != [] && (hash[0] == '#' || hash[0] == '?') && r == hash[1..])
    ensures hash != [] && hash[0] != '#' && hash[0] != '?' ==> r == hash
  {
    if hash != [] && (hash[0] == '#' || hash[0] == '?') then hash[1..] else hash
  }

  /** The text before the first `=` of a part, the whole part when it has none. */
  function KeyText(part: string): string
  {
    var i := IndexOf(part, "=");
    if i < 0 then part else part[..i]
  }

  /** The text after the first `=` of a part, empty when it has none. */
  function ValueText(part: string): string
  {
    var i := IndexOf(part, "=");
    if i < 0 then "" else part[i + 1..]
  }

  /** The dictionary after the first `n` parts have been stored, each part
      overwriting an earlier one with the same key. */
  function Filled(parts: seq<string>, dec: string -> string, n: nat): map<string, string>
    requires n <= |parts|
  {
    if n == 0 then map[]
    else Filled(parts, dec, n - 1)[dec(KeyText(parts[n - 1])) := dec(ValueText(parts[n - 1]))]
  }

  /** The parts of a query: the pieces between its `&`s. */
  function Parts(hash: string): seq<string>
  {
    Split(Query(hash), '&')
  }

  /** The dictionary `urlParamsDecode(hash)` returns; an empty `hash` gives
      the empty dictionary. */
  function Decoded(hash: string, dec: string -> string): map<string, string>
  {
    if hash == [] then map[] else Filled(Parts(hash), dec, |Parts(hash)|)
  }

  /** `urlParamsDecode(hash)`. */
  method UrlParamsDecode(hash: string, dec: string -> string) returns (obj: map<string, string>)
    ensures obj == Decoded(hash, dec)
  {
    if hash == [] {
      return map[];
    }
    var query := hash;
    if query[0] == '#' || query[0] == '?' {
      query := query[1..];
    }
    assert query == Query(hash);
    obj := StoreParts(Split(query, '&'), dec);
  }

  /** The `forEach` over the parts: store each decoded key with its decoded value. */
  method StoreParts(parts: seq<string>, dec: string -> string) returns (obj: map<string, string>)
    ensures obj == Filled(parts, dec, |parts|)
  {
    obj := map[];
    var n := 0;
    while n < |parts|
      invariant n <= |parts|
      invariant obj == Filled(parts, dec, n)
    {
      var part := parts[n];
      var i := IndexOf(part, "=");
      var key := dec(if i < 0 then part else part[..i]);
      var val := dec(if i < 0 then "" else part[i + 1..]);
      obj := obj[key := val];
      n := n + 1;
    }
  }

  /** A key is in the dictionary exactly when some of the first `n` parts has it. */
  lemma {:induction false} FilledKeys(parts: seq<string>, dec: string -> string, n: nat, k: string)
    requires n <= |parts|
    ensures k in Filled(parts, dec, n) <==> exists j :: 0 <= j < n && dec(KeyText(parts[j])) == k
  {
    if n > 0 {
      FilledKeys(parts, dec, n - 1, k);
      if dec(KeyText(parts[n - 1])) == k {
        assert k in Filled(parts, dec, n);
      }
    }
  }

  /** The value stored for a key comes from the last part that has the key. */
  lemma {:induction false} FilledLastWins(parts: seq<string>, dec: string -> string, n: nat, j: nat)
    requires j < n <= |parts|
    requires forall m :: j < m < n ==> dec(KeyText(parts[m])) != dec(KeyText(parts[j]))
    ensures dec(KeyText(parts[j])) in Filled(parts, dec, n)
    ensures Filled(parts, dec, n)[dec(KeyText(parts[j]))] == dec(ValueText(parts[j]))
  {
    if j < n - 1 {
      FilledLastWins(parts, dec, n - 1, j);
    }
  }

  /** The keys of the decoded dictionary are the decoded keys of the parts. */
  lemma DecodedKeys(hash: string, dec: string -> string, k: string)
    requires hash != []
    ensures k in Decoded(hash, dec) <==> exists j :: 0 <= j < |Parts(hash)| && dec(KeyText(Parts(hash)[j])) == k
  {
    FilledKeys(Parts(hash), dec, |Parts(hash)|, k);
  }

  /** When a key repeats, the last part with that key decides its value. */
  lemma DecodedLastWins(hash: string, dec: string -> string, j: nat)
    requires hash != [] && j < |Parts(hash)|
    requires forall m :: j < m < |Parts(hash)| ==> dec(KeyText(Parts(hash)[m])) != dec(KeyText(Parts(hash)[j]))
    ensures dec(KeyText(Parts(hash)[j])) in Decoded(hash, dec)
    ensures Decoded(hash, dec)[dec(KeyText(Parts(hash)[j]))] == dec(ValueText(Parts(hash)[j]))
  {
    FilledLastWins(Parts(hash), dec, |Parts(hash)|, j);
  }

  /** A lone `#` is not empty: it decodes to one entry, the decoded empty key
      with the decoded empty value. */
  lemma DecodedLoneHash(dec: string -> string)
    ensures Decoded("#", dec) == map[dec("") := dec("")]
  {
    assert Parts("#") == [""];
    assert IndexOf("", "=") == -1;
  }

  /** What `urlParamsEncode` is given: nothing, a string it returns as it is,
      or an object, whose properties come in their enumeration order; a
      `None` value stands for `null` or `undefined`, and a value is given as
      the result of its `toString()`. */
  datatype Params = Missing | Text(s: string) | Fields(props: seq<(string, Option<string>)>)

  function ValueOrEmpty(v: Option<string>): string
  {
    if v.Some? then v.value else ""
  }

  /** The `key=value` text of one property. */
  function Pair(p: (string, Option<string>), enc: string -> string): string
  {
    enc(p.0) + "=" + enc(ValueOrEmpty(p.1))
  }

  /** The `key=value` texts of the first `n` properties. */
  function Pairs(props: seq<(string, Option<string>)>, enc: string -> string, n: nat): (r: seq<string>)
    requires n <= |props|
    ensures |r| == n
  {
    if n == 0 then [] else Pairs(props, enc, n - 1) + [Pair(props[n - 1], enc)]
  }

  /** What `urlParamsEncode(obj)` returns: `None` for a missing argument. */
  function Encoded(obj: Params, enc: string -> string): Option<string>
  {
    match obj
    case Missing => None
    case Text(s) => Some(s)
    case Fields(props) => Some(Join(Pairs(props, enc, |props|), "&"))
  }

  /** `urlParamsEncode(obj)`. */
  method UrlParamsEncode(obj: Params, enc: string -> string) returns (r: Option<string>)
    ensures r == Encoded(obj, enc)
  {
    if obj.Missing? {
      return None;
    } else if obj.Text? {
      return Some(obj.s);
    }
    var props := obj.props;
    var vals: seq<string> := [];
    var n := 0;
    while n < |props|
      invariant n <= |props|
      invariant vals == Pairs(props, enc, n)
    {
      var (prop, value) := props[n];
      vals := vals + [enc(prop) + "=" + enc(if value.Some? then value.value else "")];
      n := n + 1;
    }
    r := Some(Join(vals, "&"));
  }

  /** The object's properties as a dictionary (JavaScript objects have
      distinct property names; a repeated name would keep the later value). */
  function FieldsMap(props: seq<(string, Option<string>)>, n: nat): map<string, string>
    requires n <= |props|
  {
    if n == 0 then map[] else FieldsMap(props, n - 1)[props[n - 1].0 := ValueOrEmpty(props[n - 1].1)]
  }

  /** What `encodeURIComponent` guarantees and the round trip needs: the
      encoding never contains `&`, `=`, `#` or `?`, and `dec` undoes `enc`. */
  ghost predicate Codec(enc: string -> string, dec: string -> string)
  {
    (forall x :: dec(enc(x)) == x) &&
    (forall x :: '&' !in enc(x) && '=' !in enc(x) && '#' !in enc(x) && '?' !in enc(x))
  }

  /** The first `=` of a `key=value` text is the one after the key. */
  lemma FirstEquals(a: string, b: string)
    requires '=' !in a
    ensures IndexOf(a + "=" + b, "=") == |a|
  {
    var s := a + "=" + b;
    assert OccursAt(s, "=", |a|);
    forall i | 0 <= i < |a| ensures !OccursAt(s, "=", i) {
      assert s[i] == a[i];
    }
  }

  lemma PairParts(p: (string, Option<string>), enc: string -> string)
    requires '=' !in enc(p.0)
    ensures KeyText(Pair(p, enc)) == enc(p.0)
    ensures ValueText(Pair(p, enc)) == enc(ValueOrEmpty(p.1))
  {
    var a, b := enc(p.0), enc(ValueOrEmpty(p.1));
    FirstEquals(a, b);
    assert (a + "=" + b)[..|a|] == a;
    assert (a + "=" + b)[|a| + 1..] == b;
  }

  /** Parts that decode to the properties' names and values, one by one,
      fill the dictionary of those properties. */
  lemma {:induction false} FilledMatches(parts: seq<string>, props: seq<(string, Option<string>)>,
                                         dec: string -> string, n: nat)
    requires n <= |parts| && n <= |props|
    requires forall k :: 0 <= k < n ==> dec(KeyText(parts[k])) == props[k].0
    requires forall k :: 0 <= k < n ==> dec(ValueText(parts[k])) == ValueOrEmpty(props[k].1)
    ensures Filled(parts, dec, n) == FieldsMap(props, n)
  {
    if n > 0 {
      FilledMatches(parts, props, dec, n - 1);
    }
  }

  lemma PairDecodes(p: (string, Option<string>), enc: string -> string, dec: string -> string)
    requires forall x :: dec(enc(x)) == x
    requires forall x :: '=' !in enc(x)
    ensures dec(KeyText(Pair(p, enc))) == p.0
    ensures dec(ValueText(Pair(p, enc))) == ValueOrEmpty(p.1)
  {
    PairParts(p, enc);
  }

  lemma {:induction false} PairsAt(props: seq<(string, Option<string>)>, enc: string -> string, n: nat, k: nat)
    requires k < n <= |props|
    ensures Pairs(props, enc, n)[k] == Pair(props[k], enc)
  {
    if k < n - 1 {
      PairsAt(props, enc, n - 1, k);
    }
  }

  /** The encoding of an object starts with its first encoded name, so no
      leading `#` or `?` is stripped. */
  lemma {:induction false} QueryOfPairs(props: seq<(string, Option<string>)>, enc: string -> string)
    requires props != [] && '#' !in enc(props[0].0) && '?' !in enc(props[0].0)
    ensures Query(Join(Pairs(props, enc, |props|), "&")) == Join(Pairs(props, enc, |props|), "&")
  {
    var pieces := Pairs(props, enc, |props|);
    JoinCons(pieces, "&");
    PairsAt(props, enc, |props|, 0);
    var a := enc(props[0].0);
    var s := Join(pieces, "&");
    assert s == a + ("=" + enc(ValueOrEmpty(props[0].1))) + (if |pieces| == 1 then "" else "&" + Join(pieces[1..], "&"));
    if a != [] {
      assert s[0] == a[0];
    } else {
      assert s[0] == '=';
    }
  }

  lemma PairsLackAmpersand(props: seq<(string, Option<string>)>, enc: string -> string)
    requires forall x :: '&' !in enc(x)
    ensures forall k :: 0 <= k < |props| ==> '&' !in Pairs(props, enc, |props|)[k]
  {
    forall k | 0 <= k < |props| ensures '&' !in Pairs(props, enc, |props|)[k] {
      PairsAt(props, enc, |props|, k);
    }
  }

  /** Decoding what `urlParamsEncode` makes of an object gives back the
      object's properties, `null` values turned into empty strings. */
  lemma DecodeEncoded(props: seq<(string, Option<string>)>, enc: string -> string, dec: string -> string)
    requires Codec(enc, dec)
    ensures Decoded(Encoded(Fields(props), enc).value, dec) == FieldsMap(props, |props|)
  {
    var pieces := Pairs(props, enc, |props|);
    if props != [] {
      var s := Join(pieces, "&");
      QueryOfPairs(props, enc);
      PairsLackAmpersand(props, enc);
      SplitJoin(pieces, '&');
      assert Parts(s) == pieces;
      forall k | 0 <= k < |props|
        ensures dec(KeyText(pieces[k])) == props[k].0 && dec(ValueText(pieces[k])) == ValueOrEmpty(props[k].1)
      {
        PairsAt(props, enc, |props|, k);
        PairDecodes(props[k], enc, dec);
      }
      FilledMatches(pieces, props, dec, |props|);
    }
  }
}
