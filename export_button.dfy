/** The report pages' export button: handleExport walks the filter entries,
    appends every non-empty one to a URLSearchParams object as
    `String(value)`, and sends the browser to the export route with that
    query. The filter values are the JavaScript values a filter can hold;
    URLSearchParams's serialisation is the application/x-www-form-urlencoded
    serializer of the WHATWG URL Standard, over the UTF-8 bytes of each name
    and value. */
module ExportButton {
  import opened Prelude

  /** A filter value. Numbers are integers here. */
  datatype JsValue = Undefined | Null | Str(s: string) | Num(n: int) | Bool(b: bool)

  /** `String(value)`. */
  function JsString(v: JsValue): (r: string)
    ensures r == "" <==> v == Str("")
    ensures v.Str? ==> r == v.s
  {
    match v
    case Undefined => "undefined"
    case Null => "null"
    case Str(s) => s
    case Num(n) => IntToString(n)
    case Bool(b) => if b then "true" else "false"
  }

  /** The test of the forEach callback: `value !== undefined && value !==
      null && value !== ''`. */
  predicate Kept(v: JsValue)
    ensures Kept(v) <==> v != Undefined && v != Null && JsString(v) != ""
  {
    v != Undefined && v != Null && v != Str("")
  }

  /** The parameters handleExport appends, in the order of the entries. */
  function KeptParams(filters: seq<(string, JsValue)>): (ps: seq<(string, string)>)
    ensures |ps| <= |filters|
  {
    if filters == [] then []
    else
      var last := filters[|filters| - 1];
      KeptParams(filters[..|filters| - 1]) + (if Kept(last.1) then [(last.0, JsString(last.1))] else [])
  }

  /** The entries taken one after the other give the parameters of the
      first, then those of the second: the order of the entries is kept. */
  lemma {:induction false} KeptParamsAppend(f: seq<(string, JsValue)>, g: seq<(string, JsValue)>)
    ensures KeptParams(f + g) == KeptParams(f) + KeptParams(g)
    decreases |g|
  {
    if g == [] {
      assert f + g == f;
    } else {
      var init := g[..|g| - 1];
      assert (f + g)[..|f + g| - 1] == f + init;
      assert (f + g)[|f + g| - 1] == g[|g| - 1];
      KeptParamsAppend(f, init);
    }
  }

  /** A parameter is appended exactly for an entry that is kept, with the
      entry's key and `String(value)`: no other key is added, and `0` and
      `false` are kept like every other non-empty value. */
  lemma {:induction false} KeptParamsMembers(filters: seq<(string, JsValue)>, p: (string, string))
    ensures p in KeptParams(filters) <==> exists i :: 0 <= i < |filters| && GivesParam(filters[i], p)
  {
    if filters != [] {
      var init := filters[..|filters| - 1];
      var last := filters[|filters| - 1];
      var added := if Kept(last.1) then [(last.0, JsString(last.1))] else [];
      KeptParamsMembers(init, p);
      assert KeptParams(filters) == KeptParams(init) + added;
      assert p in added <==> GivesParam(last, p);
      if exists i :: 0 <= i < |filters| && GivesParam(filters[i], p) {
        var i :| 0 <= i < |filters| && GivesParam(filters[i], p);
        if i < |init| {
          assert init[i] == filters[i];
        }
      }
      if exists i :: 0 <= i < |init| && GivesParam(init[i], p) {
        var i :| 0 <= i < |init| && GivesParam(init[i], p);
        assert filters[i] == init[i];
      }
    }
  }

  /** The entry e is kept and gives the parameter p: its key and
      `String(value)`. */
  predicate GivesParam(e: (string, JsValue), p: (string, string)) {
    Kept(e.1) && p == (e.0, JsString(e.1))
  }

  /** When every value is non-empty, every entry becomes a parameter, in
      order. */
  lemma {:induction false} AllKept(filters: seq<(string, JsValue)>)
    requires forall i :: 0 <= i < |filters| ==> Kept(filters[i].1)
    ensures |KeptParams(filters)| == |filters|
    ensures forall i :: 0 <= i < |filters| ==> KeptParams(filters)[i] == (filters[i].0, JsString(filters[i].1))
  {
    if filters != [] {
      var init := filters[..|filters| - 1];
      var last := filters[|filters| - 1];
      assert forall i :: 0 <= i < |init| ==> Kept(init[i].1) by {
        forall i | 0 <= i < |init| ensures Kept(init[i].1) {
          assert init[i] == filters[i];
        }
      }
      AllKept(init);
      assert Kept(last.1);
      var ps := KeptParams(filters);
      assert ps == KeptParams(init) + [(last.0, JsString(last.1))];
      forall i | 0 <= i < |filters| ensures ps[i] == (filters[i].0, JsString(filters[i].1)) {
        if i < |init| {
          assert ps[i] == KeptParams(init)[i];
          assert init[i] == filters[i];
        }
      }
    }
  }

  /** The values that are dropped and two that are not. */
  lemma EmptyValuesDropped(key: string)
    ensures KeptParams([(key, Undefined)]) == []
    ensures KeptParams([(key, Null)]) == []
    ensures KeptParams([(key, Str(""))]) == []
    ensures KeptParams([(key, Num(0))]) == [(key, "0")]
    ensures KeptParams([(key, Bool(false))]) == [(key, "false")]
  {
    assert [(key, Undefined)][..0] == [];
    assert [(key, Null)][..0] == [];
    assert [(key, Str(""))][..0] == [];
    assert [(key, Num(0))][..0] == [];
    assert [(key, Bool(false))][..0] == [];
  }

  // ---------------------------------------------------------------------
  // Form encoding

  type Byte = x: int | 0 <= x < 256

  /** The UTF-8 encoding of one character. */
  function Utf8Char(c: char): (bs: seq<Byte>)
    ensures 1 <= |bs| <= 4
  {
    var cp := c as int;
    if cp < 0x80 then [cp]
    else if cp < 0x800 then [0xC0 + cp / 64, 0x80 + cp % 64]
    else if cp < 0x10000 then [0xE0 + cp / 4096, 0x80 + (cp / 64) % 64, 0x80 + cp % 64]
    else [0xF0 + cp / 262144, 0x80 + (cp / 4096) % 64, 0x80 + (cp / 64) % 64, 0x80 + cp % 64]
  }

  function Utf8(s: string): seq<Byte> {
    if s == [] then [] else Utf8Char(s[0]) + Utf8(s[1..])
  }

  /** The bytes the serializer writes as themselves: ASCII letters, digits
      and `*-._`. */
  predicate Unreserved(b: Byte) {
    (0x30 <= b <= 0x39) || (0x41 <= b <= 0x5A) || (0x61 <= b <= 0x7A)
    || b == 0x2A || b == 0x2D || b == 0x2E || b == 0x5F
  }

  const HexDigits: string := "0123456789ABCDEF"

  /** A value below 16 read back from an upper-case hexadecimal digit. */
  function HexValue(c: char): int {
    if '0' <= c <= '9' then c as int - '0' as int
    else if 'A' <= c <= 'F' then c as int - 'A' as int + 10
    else -1
  }

  /** One byte in the query: itself, `+` for a space, else `%` and two
      upper-case hexadecimal digits. */
  function EncodeByte(b: Byte): (t: string)
    ensures '&' !in t && '=' !in t
  {
    if Unreserved(b) then [b as char]
    else if b == 0x20 then "+"
    else ['%', HexDigits[b / 16], HexDigits[b % 16]]
  }

  function EncodeBytes(bs: seq<Byte>): (t: string)
    ensures '&' !in t && '=' !in t
  {
    if bs == [] then "" else EncodeByte(bs[0]) + EncodeBytes(bs[1..])
  }

  /** A name or a value as the serializer writes it. */
  function EncodeText(s: string): (t: string)
    ensures '&' !in t && '=' !in t
  {
    EncodeBytes(Utf8(s))
  }

  /** The percent-decoding of the form parser: `+` is a space, `%` with two
      hexadecimal digits is that byte, any other character is its own code. */
  function DecodeBytes(t: string): seq<int>
    decreases |t|
  {
    if t == [] then []
    else if t[0] == '+' then [0x20] + DecodeBytes(t[1..])
    else if t[0] == '%' && |t| >= 3 && 0 <= HexValue(t[1]) && 0 <= HexValue(t[2]) then
      [HexValue(t[1]) * 16 + HexValue(t[2])] + DecodeBytes(t[3..])
    else [t[0] as int] + DecodeBytes(t[1..])
  }

  lemma DecodeByte(b: Byte, rest: string)
    ensures DecodeBytes(EncodeByte(b) + rest) == [b] + DecodeBytes(rest)
  {
    var t := EncodeByte(b) + rest;
    if !Unreserved(b) && b != 0x20 {
      HexRoundTrip(b / 16);
      HexRoundTrip(b % 16);
      assert t[3..] == rest;
    } else {
      assert t[1..] == rest;
    }
  }

  lemma HexRoundTrip(d: nat)
    requires d < 16
    ensures HexValue(HexDigits[d]) == d
  {
  }

  /** Decoding what the serializer wrote gives back the bytes. */
  lemma {:induction false} DecodeEncodeBytes(bs: seq<Byte>)
    ensures DecodeBytes(EncodeBytes(bs)) == bs
  {
    if bs != [] {
      DecodeByte(bs[0], EncodeBytes(bs[1..]));
      DecodeEncodeBytes(bs[1..]);
    }
  }

  /** The query string of a list of parameters: `name=value` pairs joined
      by `&`. */
  function Serialize(ps: seq<(string, string)>): (r: string)
    ensures r == "" <==> ps == []
    ensures ps != [] ==> StartsWith(r, EncodeText(ps[0].0) + "=" + EncodeText(ps[0].1))
  {
    if ps == [] then ""
    else if |ps| == 1 then EncodeText(ps[0].0) + "=" + EncodeText(ps[0].1)
    else EncodeText(ps[0].0) + "=" + EncodeText(ps[0].1) + "&" + Serialize(ps[1..])
  }

  // ---------------------------------------------------------------------
  // Reading a query back

  /** The index of the first c in t, or |t| when there is none. */
  function IndexOf(t: string, c: char): (n: nat)
    ensures n <= |t| && c !in t[..n] && (n < |t| ==> t[n] == c)
  {
    if t == [] || t[0] == c then 0
    else
      assert t[..1 + IndexOf(t[1..], c)] == [t[0]] + t[1..][..IndexOf(t[1..], c)];
      1 + IndexOf(t[1..], c)
  }

  lemma {:induction false} IndexOfPrefix(a: string, c: char, rest: string)
    requires c !in a
    ensures IndexOf(a + [c] + rest, c) == |a|
  {
    if a != [] {
      assert a[0] in a;
      assert (a + [c] + rest)[1..] == a[1..] + [c] + rest;
      IndexOfPrefix(a[1..], c, rest);
    }
  }

  lemma IndexOfAbsent(a: string, c: char)
    requires c !in a
    ensures IndexOf(a, c) == |a|
  {
  }

  /** One `name=value` segment, decoded; a segment without `=` is a name
      with an empty value. */
  function ParsePair(seg: string): (seq<int>, seq<int>) {
    var e := IndexOf(seg, '=');
    (DecodeBytes(seg[..e]), if e < |seg| then DecodeBytes(seg[e + 1..]) else [])
  }

  /** The form parser: the query split at every `&`, empty segments
      skipped, each segment decoded. */
  function ParseQuery(q: string): seq<(seq<int>, seq<int>)>
    decreases |q|
  {
    var e := IndexOf(q, '&');
    var head := if e == 0 then [] else [ParsePair(q[..e])];
    if e < |q| then head + ParseQuery(q[e + 1..]) else head
  }

  /** The UTF-8 bytes of each parameter's name and value. */
  function BytePairs(ps: seq<(string, string)>): seq<(seq<int>, seq<int>)> {
    if ps == [] then [] else [(Utf8(ps[0].0), Utf8(ps[0].1))] + BytePairs(ps[1..])
  }

  lemma ParseEncodedPair(k: string, v: string)
    ensures ParsePair(EncodeText(k) + "=" + EncodeText(v)) == (Utf8(k), Utf8(v))
  {
    var seg := EncodeText(k) + "=" + EncodeText(v);
    IndexOfPrefix(EncodeText(k), '=', EncodeText(v));
    assert seg[..|EncodeText(k)|] == EncodeText(k);
    assert seg[|EncodeText(k)| + 1..] == EncodeText(v);
    DecodeEncodeBytes(Utf8(k));
    DecodeEncodeBytes(Utf8(v));
  }

  /** Parsing the serialized query gives back every parameter, in order, as
      the UTF-8 bytes of its name and value. */
  lemma {:induction false} ParseSerialize(ps: seq<(string, string)>)
    ensures ParseQuery(Serialize(ps)) == BytePairs(ps)
  {
    if ps == [] {
      assert IndexOf("", '&') == 0;
    } else {
      var seg := EncodeText(ps[0].0) + "=" + EncodeText(ps[0].1);
      assert '&' !in seg;
      ParseEncodedPair(ps[0].0, ps[0].1);
      if |ps| == 1 {
        IndexOfAbsent(seg, '&');
        assert seg[..|seg|] == seg;
      } else {
        var q := Serialize(ps);
        assert q == seg + "&" + Serialize(ps[1..]);
        IndexOfPrefix(seg, '&', Serialize(ps[1..]));
        assert q[..|seg|] == seg;
        assert q[|seg| + 1..] == Serialize(ps[1..]);
        ParseSerialize(ps[1..]);
      }
    }
  }

  // ---------------------------------------------------------------------
  // The button

  /** A URLSearchParams object: its list of name-value pairs. */
  class SearchParams {
    var entries: seq<(string, string)>

    constructor()
      ensures entries == []
    {
      entries := [];
    }

    /** `append(name, value)`: a new pair at the end of the list. */
    method Append(name: string, value: string)
      modifies this
      ensures entries == old(entries) + [(name, value)]
    {
      entries := entries + [(name, value)];
    }

    /** `toString()`. */
    function ToString(): string
      reads this
    {
      Serialize(entries)
    }
  }

  /** handleExport: the new `window.location.href`. */
  method HandleExport(exportRoute: string, filters: seq<(string, JsValue)>) returns (href: string)
    ensures href == exportRoute + "?" + Serialize(KeptParams(filters))
  {
    var params := new SearchParams();
    for i := 0 to |filters|
      invariant params.entries == KeptParams(filters[..i])
    {
      var (key, value) := filters[i];
      assert filters[..i + 1][..i] == filters[..i];
      if value != Undefined && value != Null && value != Str("") {
        params.Append(key, JsString(value));
      }
    }
    assert filters[..|filters|] == filters;
    href := exportRoute + "?" + params.ToString();
  }

  /** The target always holds the `?`, even when no parameter survives. */
  lemma {:induction false} NothingKept(exportRoute: string, filters: seq<(string, JsValue)>)
    requires forall i :: 0 <= i < |filters| ==> !Kept(filters[i].1)
    ensures exportRoute + "?" + Serialize(KeptParams(filters)) == exportRoute + "?"
  {
    if filters != [] {
      var init := filters[..|filters| - 1];
      assert forall i :: 0 <= i < |init| ==> init[i] == filters[i];
      NothingKept(exportRoute, init);
    }
  }
}
