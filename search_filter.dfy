/** The media search bar: the query string it builds from the search text and
    the chosen category, and the navigation it triggers. */
module SearchFilter {
  import opened Wrappers
  import opened Strings

  // ---------------------------------------------------------------------------
  // `URLSearchParams.toString()`: the application/x-www-form-urlencoded
  // serializer of the WHATWG URL Standard.

  /** Characters written as themselves: ASCII letters and digits, `*`, `-`, `.`, `_`. */
  predicate Unreserved(c: char)
  {
    IsUpper(c) || IsLower(c) || IsDigit(c) || c == '*' || c == '-' || c == '.' || c == '_'
  }

  predicate IsHexUpper(c: char)
  {
    IsDigit(c) || 'A' <= c <= 'F'
  }

  function HexChar(d: nat): (c: char)
    requires d < 16
    ensures IsHexUpper(c)
  {
    if d < 10 then ('0' as int + d) as char else ('A' as int + d - 10) as char
  }

  function HexValue(c: char): (d: nat)
    requires IsHexUpper(c)
    ensures d < 16 && HexChar(d) == c
  {
    if IsDigit(c) then c as int - '0' as int else c as int - 'A' as int + 10
  }

  /** The UTF-8 bytes of a character. */
  function Utf8(c: char): (bytes: seq<nat>)
    ensures 1 <= |bytes| <= 4
    ensures forall k :: 0 <= k < |bytes| ==> bytes[k] < 256
    ensures (c as int < 0x80) <==> |bytes| == 1
    ensures c as int < 0x80 ==> bytes == [c as int]
  {
    var cp := c as int;
    if cp < 0x80 then [cp]
    else if cp < 0x800 then [0xC0 + cp / 64, 0x80 + cp % 64]
    else if cp < 0x10000 then [0xE0 + cp / 4096, 0x80 + cp / 64 % 64, 0x80 + cp % 64]
    else [0xF0 + cp / 262144, 0x80 + cp / 4096 % 64, 0x80 + cp / 64 % 64, 0x80 + cp % 64]
  }

  function PercentBytes(bytes: seq<nat>): (r: string)
    requires forall k :: 0 <= k < |bytes| ==> bytes[k] < 256
    ensures |r| == 3 * |bytes|
  {
    if bytes == [] then ""
    else ['%', HexChar(bytes[0] / 16), HexChar(bytes[0] % 16)] + PercentBytes(bytes[1..])
  }

  function EncodeChar(c: char): (r: string)
  {
    if Unreserved(c) then [c]
    else if c == ' ' then "+"
    else PercentBytes(Utf8(c))
  }

  /** The serialization of one name or value. */
  function FormEncode(s: string): (r: string)
  {
    if s == [] then "" else EncodeChar(s[0]) + FormEncode(s[1..])
  }

  /** What an encoding is made of: unreserved characters, `+`, and `%` escapes
      in upper-case hexadecimal. In particular no `&` and no `=`. */
  predicate EncodedChar(c: char)
  {
    Unreserved(c) || c == '+' || c == '%'
  }

  lemma {:induction false} PercentBytesAlphabet(bytes: seq<nat>)
    requires forall k :: 0 <= k < |bytes| ==> bytes[k] < 256
    ensures forall i :: 0 <= i < |PercentBytes(bytes)| ==> EncodedChar(PercentBytes(bytes)[i])
  {
    if bytes != [] {
      PercentBytesAlphabet(bytes[1..]);
      var head: string := ['%', HexChar(bytes[0] / 16), HexChar(bytes[0] % 16)];
      assert PercentBytes(bytes) == head + PercentBytes(bytes[1..]);
    }
  }

  lemma {:induction false} FormEncodeAlphabet(s: string)
    ensures forall i :: 0 <= i < |FormEncode(s)| ==> EncodedChar(FormEncode(s)[i])
    ensures '&' !in FormEncode(s) && '=' !in FormEncode(s)
  {
    if s != [] {
      FormEncodeAlphabet(s[1..]);
      var c := s[0];
      if !Unreserved(c) && c != ' ' {
        PercentBytesAlphabet(Utf8(c));
      }
      assert FormEncode(s) == EncodeChar(c) + FormEncode(s[1..]);
    }
  }

  /** Reading an encoding back, one byte per escape. For ASCII text that is
      the text itself (`DecodeEncodeAscii`). */
  function FormDecode(t: string): (r: string)
  {
    if t == [] then ""
    else if t[0] == '+' then " " + FormDecode(t[1..])
    else if t[0] == '%' && |t| >= 3 && IsHexUpper(t[1]) && IsHexUpper(t[2])
    then [(HexValue(t[1]) * 16 + HexValue(t[2])) as char] + FormDecode(t[3..])
    else [t[0]] + FormDecode(t[1..])
  }

  predicate IsAscii(s: string)
  {
    forall i :: 0 <= i < |s| ==> s[i] as int < 0x80
  }

  lemma DecodeOneChar(c: char, rest: string)
    requires c as int < 0x80
    ensures FormDecode(EncodeChar(c) + rest) == [c] + FormDecode(rest)
  {
    var t := EncodeChar(c) + rest;
    if Unreserved(c) {
      assert t[0] == c && t[1..] == rest;
    } else if c == ' ' {
      assert t[0] == '+' && t[1..] == rest;
    } else {
      var b := c as int;
      assert Utf8(c) == [b];
      assert EncodeChar(c) == ['%', HexChar(b / 16), HexChar(b % 16)];
      assert t[0] == '%' && t[1] == HexChar(b / 16) && t[2] == HexChar(b % 16) && t[3..] == rest;
      assert HexValue(t[1]) * 16 + HexValue(t[2]) == b;
    }
  }

  lemma {:induction false} DecodeEncodeAscii(s: string)
    requires IsAscii(s)
    ensures FormDecode(FormEncode(s)) == s
  {
    if s != [] {
      DecodeEncodeAscii(s[1..]);
      DecodeOneChar(s[0], FormEncode(s[1..]));
      assert [s[0]] + s[1..] == s;
    }
  }

  // ---------------------------------------------------------------------------
  // The query string

  /** The parameters in insertion order, as (name, value) pairs. */
  type Params = seq<(string, string)>

  function Pair(p: (string, string)): string
  {
    FormEncode(p.0) + "=" + FormEncode(p.1)
  }

  function Pairs(params: Params): (r: seq<string>)
    ensures |r| == |params|
  {
    seq(|params|, i requires 0 <= i < |params| => Pair(params[i]))
  }

  /** `params.toString()`: the encoded pairs joined by `&`; empty for no parameters. */
  function QueryString(params: Params): string
  {
    Join(Pairs(params), '&')
  }

  /** The inverse: split on `&`, then each piece at its `=`. */
  function ParseQuery(q: string): Params
  {
    if q == "" then []
    else
      var pieces := Split(q, '&');
      seq(|pieces|, i requires 0 <= i < |pieces| => ParsePair(pieces[i]))
  }

  function ParsePair(piece: string): (string, string)
  {
    var kv := Split(piece, '=');
    (FormDecode(kv[0]), if |kv| >= 2 then FormDecode(kv[1]) else "")
  }

  predicate AsciiParams(params: Params)
  {
    forall i :: 0 <= i < |params| ==> IsAscii(params[i].0) && IsAscii(params[i].1)
  }

  lemma PairRoundTrip(p: (string, string))
    requires IsAscii(p.0) && IsAscii(p.1)
    ensures '&' !in Pair(p)
    ensures ParsePair(Pair(p)) == p
  {
    FormEncodeAlphabet(p.0);
    FormEncodeAlphabet(p.1);
    SplitAtFirstSeparator(FormEncode(p.0), '=', FormEncode(p.1));
    SplitWithoutSeparator(FormEncode(p.1), '=');
    DecodeEncodeAscii(p.0);
    DecodeEncodeAscii(p.1);
  }

  /** For ASCII names and values, the query string reads back as exactly the
      parameters it was built from. */
  lemma QueryRoundTrip(params: Params)
    requires AsciiParams(params)
    ensures ParseQuery(QueryString(params)) == params
  {
    if params != [] {
      var pieces := Pairs(params);
      forall i | 0 <= i < |pieces|
        ensures '&' !in pieces[i] && ParsePair(pieces[i]) == params[i]
      {
        PairRoundTrip(params[i]);
      }
      SplitJoin(pieces, '&');
      assert QueryString(params) != "" by {
        assert '=' in pieces[0];
        JoinHasFirst(pieces, '&');
      }
    }
  }

  lemma JoinHasFirst(parts: seq<string>, sep: char)
    requires |parts| >= 1
    ensures |Join(parts, sep)| >= |parts[0]|
  {
  }

  // ---------------------------------------------------------------------------
  // The component

  const AllCategories := "All Categories"

  /** The parameters a search sets: `search` iff the text is non-empty, and
      `category` iff the category is non-empty and not "All Categories". */
  function BuildParams(search: string, category: string): (params: Params)
    ensures |params| <= 2
    ensures (exists i :: 0 <= i < |params| && params[i].0 == "search") <==> search != ""
    ensures (exists i :: 0 <= i < |params| && params[i].0 == "category") <==> category != "" && category != AllCategories
    ensures forall i :: 0 <= i < |params| && params[i].0 == "search" ==> params[i].1 == search
    ensures forall i :: 0 <= i < |params| && params[i].0 == "category" ==> params[i].1 == category
  {
    var s: Params := if search != "" then [("search", search)] else [];
    var c: Params := if category != "" && category != AllCategories then [("category", category)] else [];
    assert "search"[0] != "category"[0];
    assert s != [] ==> (s + c)[0].0 == "search";
    assert c != [] ==> (s + c)[|s|].0 == "category";
    s + c
  }

  function Target(search: string, category: string): string
  {
    "/media?" + QueryString(BuildParams(search, category))
  }

  class SearchBar {
    var search: string
    var category: string
    /** Every URL passed to `router.push`, in order. */
    var pushed: seq<string>

    /** Both fields start from the current URL's parameters, "" when absent. */
    constructor (urlSearch: Option<string>, urlCategory: Option<string>)
      ensures search == urlSearch.GetOr("") && category == urlCategory.GetOr("")
      ensures pushed == []
    {
      search := urlSearch.GetOr("");
      category := urlCategory.GetOr("");
      pushed := [];
    }

    /** Typing in the search box. */
    method SetSearch(text: string)
      modifies this
      ensures search == text && category == old(category) && pushed == old(pushed)
    {
      search := text;
    }

    method HandleSearch()
      modifies this
      ensures search == old(search) && category == old(category)
      ensures pushed == old(pushed) + [Target(search, category)]
    {
      pushed := pushed + [Target(search, category)];
    }

    /** Choosing a category navigates at once, with the new category rather
        than the one held before. */
    method HandleCategoryChange(newCategory: string)
      modifies this
      ensures category == newCategory && search == old(search)
      ensures pushed == old(pushed) + [Target(old(search), newCategory)]
    {
      category := newCategory;
      pushed := pushed + [Target(search, newCategory)];
    }
  }

  /** The media page reads back what the bar sent: for ASCII text, the query
      after `/media?` parses to the search text and the category, each present
      exactly when set. */
  lemma TargetReadsBack(search: string, category: string)
    requires IsAscii(search) && IsAscii(category)
    ensures StartsWith(Target(search, category), "/media?")
    ensures ParseQuery(Target(search, category)[7..]) == BuildParams(search, category)
  {
    var params := BuildParams(search, category);
    assert AsciiParams(params) by {
      assert IsAscii("search") && IsAscii("category");
    }
    QueryRoundTrip(params);
    assert Target(search, category)[7..] == QueryString(params);
  }
}
