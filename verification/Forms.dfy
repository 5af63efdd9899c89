/** Looking up a field in a query string or a form body, against any encoder that writes
    such a form. Characters are bytes. */
module Forms {
  import opened Registry
  import opened Text

  // -------------------------------------------------------------- decoding

  predicate IsHex(c: char) { '0' <= c <= '9' || 'a' <= c <= 'f' || 'A' <= c <= 'F' }

  function HexValue(c: char): (d: nat)
    requires IsHex(c)
    ensures d < 16
  {
    if c <= '9' then (c - '0') as nat else if c <= 'F' then 10 + (c - 'A') as nat else 10 + (c - 'a') as nat
  }

  function HexPair(high: char, low: char): char
    requires IsHex(high) && IsHex(low)
  {
    (HexValue(high) * 16 + HexValue(low)) as char
  }

  predicate StartsEscape(s: string)
  {
    |s| > 2 && s[0] == '%' && IsHex(s[1]) && IsHex(s[2])
  }

  function Decoded(s: string): string
    decreases |s|
  {
    if s == "" then ""
    else if s[0] == '+' then " " + Decoded(s[1..])
    else if StartsEscape(s) then [HexPair(s[1], s[2])] + Decoded(s[3..])
    else [s[0]] + Decoded(s[1..])
  }

  /** A complete escape is one byte, whichever case its hex digits have. */
  lemma {:induction false} EscapeIsByte(h: char, l: char, i: nat, j: nat, rest: string)
    requires i < 16 && (h == "0123456789abcdef"[i] || h == "0123456789ABCDEF"[i])
    requires j < 16 && (l == "0123456789abcdef"[j] || l == "0123456789ABCDEF"[j])
    ensures Decoded(['%', h, l] + rest) == [(16 * i + j) as char] + Decoded(rest)
  {
    HexDigitValue(h, i);
    HexDigitValue(l, j);
    hide IsHex, HexValue;
    EscapeStarts(h, l, rest);
  }

  lemma {:induction false} EscapeStarts(h: char, l: char, rest: string)
    requires IsHex(h) && IsHex(l)
    ensures Decoded(['%', h, l] + rest) == [HexPair(h, l)] + Decoded(rest)
  {
    hide IsHex, HexPair;
    var s := ['%', h, l] + rest;
    assert s[0] == '%' && s[1] == h && s[2] == l && s[3..] == rest;
  }

  /** A plus is a space, and no other character means anything by itself. */
  lemma {:induction false} PlainIsItself(c: char, rest: string)
    requires c != '%'
    ensures Decoded([c] + rest) == [if c == '+' then ' ' else c] + Decoded(rest)
  {
    assert ([c] + rest)[1..] == rest;
  }

  lemma {:induction false} HexDigitValue(c: char, i: nat)
    requires i < 16 && (c == "0123456789abcdef"[i] || c == "0123456789ABCDEF"[i])
    ensures IsHex(c) && HexValue(c) == i
  {
  }

  method UrlDecode(value: string) returns (out: string)
    ensures out == Decoded(value)
  {
    out := "";
    var i := 0;
    while i < |value|
      invariant i <= |value| && out + Decoded(value[i..]) == Decoded(value)
    {
      ghost var before := out;
      DecodedStep(value[i..]);
      if value[i] == '+' {
        out := out + " ";
        assert value[i..][1..] == value[i + 1..];
      } else if value[i] == '%' && i + 2 < |value| && IsHex(value[i + 1]) && IsHex(value[i + 2]) {
        out := out + [HexPair(value[i + 1], value[i + 2])];
        assert value[i..][3..] == value[i + 3..];
        i := i + 2;
      } else {
        out := out + [value[i]];
        assert value[i..][1..] == value[i + 1..];
      }
      i := i + 1;
    }
  }

  lemma {:induction false} DecodedStep(s: string)
    requires s != ""
    ensures forall before: string :: before + Decoded(s) ==
              if s[0] == '+' then before + " " + Decoded(s[1..])
              else if StartsEscape(s) then before + [HexPair(s[1], s[2])] + Decoded(s[3..])
              else before + [s[0]] + Decoded(s[1..])
  {
  }

  // ---------------------------------------------------------------- lookup

  /** A byte string as a caller sees it, up to its first NUL. */
  function UpToNul(s: string): string { s[..IndexOf(s, '\0')] }

  predicate Names(segment: string, name: string)
  {
    |segment| > |name| && segment[..|name|] == name && segment[|name|] == '='
  }

  function Lookup(s: string, name: string): Option<string>
    decreases |s|
  {
    if s == "" then None
    else
      var n := IndexOf(s, '&');
      if Names(s[..n], name) then Some(UpToNul(Decoded(s[..n][|name| + 1..])))
      else if n == |s| then None
      else Lookup(s[n + 1..], name)
  }

  /** What follows the first question mark, or all of it. */
  function AfterPath(query: string): string
  {
    var n := IndexOf(query, '?');
    if n < |query| then query[n + 1..] else query
  }

  method ApiQueryParam(query: Option<string>, name: string) returns (value: Option<string>)
    ensures value == if query.None? then None else Lookup(AfterPath(query.value), name)
  {
    if query.None? {
      return None;
    }
    hide Lookup, IndexOf;
    var s := query.value;
    var mark := IndexOf(s, '?');
    var cursor := if mark < |s| then mark + 1 else 0;
    assert AfterPath(s) == s[cursor..];
    value := LookupFrom(s, cursor, name);
  }

  /** The length of the segment that starts at the cursor. */
  function SegmentLength(s: string, cursor: nat): (len: nat)
    requires cursor <= |s|
    ensures cursor + len <= |s|
  {
    IndexOf(s[cursor..], '&')
  }

  function LookupAt(s: string, cursor: nat, name: string): Option<string>
    requires cursor <= |s|
  {
    Lookup(s[cursor..], name)
  }

  /** The segment is the name, an equals sign and something. */
  predicate NameAt(s: string, cursor: nat, len: nat, name: string)
    requires cursor + len <= |s|
    ensures NameAt(s, cursor, len, name) ==> len > |name|
  {
    len > |name| && s[cursor..cursor + |name|] == name && s[cursor + |name|] == '='
  }

  function Slice(s: string, from: nat, to: nat): string
    requires from <= to <= |s|
  {
    s[from..to]
  }

  method LookupFrom(s: string, start: nat, name: string) returns (value: Option<string>)
    requires start <= |s|
    ensures value == LookupAt(s, start, name)
  {
    hide *;
    var cursor := start;
    while cursor < |s|
      invariant cursor <= |s| && LookupAt(s, cursor, name) == LookupAt(s, start, name)
    {
      var len := SegmentLength(s, cursor);
      LookupInPlace(s, cursor, name);
      if NameAt(s, cursor, len, name) {
        var decoded := UrlDecode(Slice(s, cursor + |name| + 1, cursor + len));
        return Some(UpToNul(decoded));
      }
      if cursor + len == |s| {
        return None;
      }
      cursor := cursor + len + 1;
    }
    NothingToFind(s, name);
    return None;
  }

  lemma {:induction false} NothingToFind(s: string, name: string)
    ensures LookupAt(s, |s|, name) == None
  {
  }

  /** One turn of the lookup, in terms of places in the whole string. */
  lemma {:induction false} LookupInPlace(s: string, cursor: nat, name: string)
    requires cursor < |s|
    ensures var len := SegmentLength(s, cursor);
            LookupAt(s, cursor, name) ==
              if NameAt(s, cursor, len, name) then Some(UpToNul(Decoded(Slice(s, cursor + |name| + 1, cursor + len))))
              else if cursor + len == |s| then None else LookupAt(s, cursor + len + 1, name)
  {
    hide UpToNul, Decoded;
    var rest := s[cursor..];
    var len := IndexOf(rest, '&');
    var segment := rest[..len];
    assert segment == s[cursor..cursor + len];
    if len > |name| {
      assert segment[..|name|] == s[cursor..cursor + |name|];
      assert segment[|name| + 1..] == s[cursor + |name| + 1..cursor + len];
    }
    if len < |rest| {
      assert rest[len + 1..] == s[cursor + len + 1..];
    }
  }

  // -------------------------------------------------------------- encoding

  /** Characters with no meaning of their own in a form. */
  predicate Unreserved(c: char) { c !in "+%&=?" && c != '\0' }

  /** One way to write a value: each byte as it is if it is unreserved, a space as a plus,
      or any byte as a percent sign and two hex digits of either case. */
  predicate Encodes(e: string, v: string)
    decreases |v|
  {
    if v == "" then e == ""
    else
      e != "" &&
      (if StartsEscape(e) then HexPair(e[1], e[2]) == v[0] && Encodes(e[3..], v[1..])
       else (if e[0] == '+' then v[0] == ' ' else e[0] == v[0] && Unreserved(v[0])) && Encodes(e[1..], v[1..]))
  }

  function HexDigit(d: nat): (c: char)
    requires d < 16
    ensures IsHex(c) && HexValue(c) == d
  {
    if d < 10 then '0' + d as char else 'A' + (d - 10) as char
  }

  predicate IsBytes(s: string) { forall i :: 0 <= i < |s| ==> s[i] < 256 as char }

  /** The encoder that escapes all it can. */
  function PercentEncoded(v: string): (e: string)
    requires IsBytes(v)
    decreases |v|
  {
    if v == "" then ""
    else ['%', HexDigit(v[0] as nat / 16), HexDigit(v[0] as nat % 16)] + PercentEncoded(v[1..])
  }

  /** Every byte string can be written. */
  lemma {:induction false} EveryValueEncodes(v: string)
    requires IsBytes(v)
    ensures Encodes(PercentEncoded(v), v)
    decreases |v|
  {
    if v != "" {
      EveryValueEncodes(v[1..]);
      var e := PercentEncoded(v);
      assert e[3..] == PercentEncoded(v[1..]);
      assert HexPair(e[1], e[2]) == v[0];
    }
  }

  /** Decoding undoes every encoding, and no separator occurs in one. */
  lemma {:induction false} DecodeUndoesEncode(e: string, v: string)
    requires Encodes(e, v)
    ensures Decoded(e) == v
    ensures '&' !in e && '=' !in e && '?' !in e
    decreases |v|
  {
    if v != "" {
      var n := if StartsEscape(e) then 3 else 1;
      DecodeUndoesEncode(e[n..], v[1..]);
      assert v == [v[0]] + v[1..];
      assert e == e[..n] + e[n..];
    }
  }

  // ------------------------------------------------------------ round trip

  /** A field of a form, with the text that stands for its value. */
  datatype Field = Field(name: string, value: string, encoded: string)

  /** Names are written as they are, values in any encoding of theirs. */
  predicate Written(f: Field)
  {
    (forall i :: 0 <= i < |f.name| ==> Unreserved(f.name[i])) && Encodes(f.encoded, f.value)
  }

  function FieldText(f: Field): string { f.name + "=" + f.encoded }

  function FormText(fs: seq<Field>): string
    decreases |fs|
  {
    if fs == [] then ""
    else if |fs| == 1 then FieldText(fs[0])
    else FieldText(fs[0]) + "&" + FormText(fs[1..])
  }

  /** The value of the first field of the name, cut at its first NUL. */
  function FirstValue(fs: seq<Field>, name: string): (r: Option<string>)
    ensures r == None <==> forall i :: 0 <= i < |fs| ==> fs[i].name != name
    ensures forall i :: 0 <= i < |fs| && fs[i].name == name && (forall k :: 0 <= k < i ==> fs[k].name != name)
                        ==> r == Some(UpToNul(fs[i].value))
    decreases |fs|
  {
    if fs == [] then None
    else if fs[0].name == name then Some(UpToNul(fs[0].value))
    else FirstValue(fs[1..], name)
  }

  lemma {:induction false} FieldTextNames(f: Field, name: string)
    requires Written(f)
    ensures Names(FieldText(f), name) <==> f.name == name
    ensures FieldText(f)[|f.name| + 1..] == f.encoded
    ensures '&' !in FieldText(f) && '?' !in FieldText(f)
  {
    DecodeUndoesEncode(f.encoded, f.value);
    hide Encodes;
    var t := FieldText(f);
    assert t[..|f.name|] == f.name && t[|f.name|] == '=';
    if Names(t, name) && |name| == |f.name| {
      assert t[..|name|] == name;
    }
  }

  lemma {:induction false} LookupFirst(f: Field, rest: string, name: string)
    requires Written(f)
    ensures Lookup(FieldText(f), name) == if f.name == name then Some(UpToNul(f.value)) else None
    ensures Lookup(FieldText(f) + "&" + rest, name)
         == if f.name == name then Some(UpToNul(f.value)) else Lookup(rest, name)
  {
    FieldTextNames(f, name);
    DecodeUndoesEncode(f.encoded, f.value);
    var t := FieldText(f);
    hide Encodes, Names, Decoded, FieldText, UpToNul;
    IndexOfAt(t, '&', |t|);
    assert t[..|t|] == t;
    var long := t + "&" + rest;
    assert long[..|t|] == t && long[|t| + 1..] == rest;
    IndexOfAt(long, '&', |t|);
  }

  lemma {:induction false} LookupInForm(fs: seq<Field>, name: string)
    requires forall i :: 0 <= i < |fs| ==> Written(fs[i])
    ensures Lookup(FormText(fs), name) == FirstValue(fs, name)
    decreases |fs|
  {
    hide Written, FieldText, UpToNul;
    if fs != [] {
      LookupFirst(fs[0], FormText(fs[1..]), name);
      LookupInForm(fs[1..], name);
    }
  }

  lemma {:induction false} FormTextHasNoMark(fs: seq<Field>)
    requires forall i :: 0 <= i < |fs| ==> Written(fs[i])
    ensures '?' !in FormText(fs)
    decreases |fs|
  {
    hide Written, FieldText;
    if fs != [] {
      FieldTextNames(fs[0], "");
      FormTextHasNoMark(fs[1..]);
    }
  }

  /** Looking a name up in a written form, alone or after a path and a question mark, gives
      the value of the first field of that name up to its first NUL, and nothing exactly
      when no field has the name. */
  lemma {:induction false} LookupInvertsEncoding(path: Option<string>, fs: seq<Field>, name: string)
    requires forall i :: 0 <= i < |fs| ==> Written(fs[i])
    requires path.Some? ==> '?' !in path.value
    ensures var query := (if path.None? then "" else path.value + "?") + FormText(fs);
            Lookup(AfterPath(query), name) == FirstValue(fs, name)
  {
    hide Written, Lookup;
    var text := FormText(fs);
    FormTextHasNoMark(fs);
    LookupInForm(fs, name);
    if path.None? {
      assert "" + text == text && text[..|text|] == text;
      IndexOfAt(text, '?', |text|);
    } else {
      var query := path.value + "?" + text;
      assert query[..|path.value|] == path.value && query[|path.value| + 1..] == text;
      IndexOfAt(query, '?', |path.value|);
    }
  }

  /** The first field of a name comes back unchanged exactly when its value has no NUL. */
  lemma {:induction false} ValueComesBackIff(fs: seq<Field>, k: nat)
    requires forall i :: 0 <= i < |fs| ==> Written(fs[i])
    requires k < |fs| && forall i :: 0 <= i < k ==> fs[i].name != fs[k].name
    ensures Lookup(AfterPath(FormText(fs)), fs[k].name) == Some(fs[k].value) <==> '\0' !in fs[k].value
  {
    hide Written, Lookup, AfterPath;
    LookupInvertsEncoding(None, fs, fs[k].name);
    assert "" + FormText(fs) == FormText(fs);
    var v := fs[k].value;
    assert UpToNul(v) == v <==> IndexOf(v, '\0') == |v|;
    if '\0' !in v {
      assert v[..|v|] == v;
      IndexOfAt(v, '\0', |v|);
    } else {
      assert v[..|v|] == v;
    }
  }
}
