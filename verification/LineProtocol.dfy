/** Printing one sample as a line of the InfluxDB line protocol, against a reader that goes
    through the line from left to right and takes a character after a backslash as it is. */
module LineProtocol {
  import opened Samples
  import opened Registry

  type Pairs = seq<(string, string)>

  /** What a line says. Numbers of fields are kept as text. */
  datatype Point = Point(measurement: string, tags: Pairs, fields: Pairs, timestamp: int)

  const IN_TAG: string := ",= \\"
  const IN_MEASUREMENT: string := ", \\"

  // -------------------------------------------------------------- printing

  function EscapedChar(c: char, special: string): string
  {
    if c in special then ['\\', c] else [c]
  }

  function Escaped(value: string, special: string): string
    decreases |value|
  {
    if value == "" then "" else EscapedChar(value[0], special) + Escaped(value[1..], special)
  }

  method AppendEscapedTag(out: string, value: Option<string>) returns (r: string)
    ensures r == out + Escaped(GetOr(value, ""), IN_TAG)
  {
    hide Escaped;
    var v := GetOr(value, "");
    r := out;
    var i := 0;
    while i < |v|
      invariant i <= |v| && r + Escaped(v[i..], IN_TAG) == out + Escaped(v, IN_TAG)
    {
      EscapedStep(v[i..], IN_TAG, r);
      if v[i] == ',' || v[i] == '=' || v[i] == ' ' || v[i] == '\\' {
        r := r + ['\\'];
      }
      r := r + [v[i]];
      assert v[i..][1..] == v[i + 1..];
      i := i + 1;
    }
    assert v[i..] == "";
    NothingEscaped(IN_TAG);
  }

  method AppendEscapedMeasurement(out: string, value: Option<string>) returns (r: string)
    ensures r == out + Escaped(GetOr(value, ""), IN_MEASUREMENT)
  {
    hide Escaped;
    var v := GetOr(value, "");
    r := out;
    var i := 0;
    while i < |v|
      invariant i <= |v| && r + Escaped(v[i..], IN_MEASUREMENT) == out + Escaped(v, IN_MEASUREMENT)
    {
      EscapedStep(v[i..], IN_MEASUREMENT, r);
      if v[i] == ',' || v[i] == ' ' || v[i] == '\\' {
        r := r + ['\\'];
      }
      r := r + [v[i]];
      assert v[i..][1..] == v[i + 1..];
      i := i + 1;
    }
    assert v[i..] == "";
    NothingEscaped(IN_MEASUREMENT);
  }

  function GetOr(o: Option<string>, default: string): string
  {
    if o.Some? then o.value else default
  }

  lemma {:induction false} NothingEscaped(special: string)
    ensures Escaped("", special) == ""
  {
  }

  /** A backslash goes before a comma, a space and a backslash, in tags before an equals sign
      as well, and before nothing else. */
  lemma {:induction false} OneEscaped(c: char)
    ensures Escaped([c], IN_TAG) == if c == ',' || c == '=' || c == ' ' || c == '\\' then ['\\', c] else [c]
    ensures Escaped([c], IN_MEASUREMENT) == if c == ',' || c == ' ' || c == '\\' then ['\\', c] else [c]
  {
    assert [c][1..] == "";
  }

  lemma {:induction false} EscapedJoins(a: string, b: string, special: string)
    ensures Escaped(a + b, special) == Escaped(a, special) + Escaped(b, special)
    decreases |a|
  {
    hide EscapedChar;
    if a == "" {
      assert a + b == b;
    } else {
      EscapedJoins(a[1..], b, special);
      assert (a + b)[1..] == a[1..] + b;
    }
  }

  lemma {:induction false} EscapedStep(v: string, special: string, before: string)
    requires v != ""
    ensures before + Escaped(v, special) == before + EscapedChar(v[0], special) + Escaped(v[1..], special)
  {
  }

  function Digit(d: nat): char
    requires d < 10
  {
    '0' + d as char
  }

  function Digits(n: nat): string
  {
    if n < 10 then [Digit(n)] else Digits(n / 10) + [Digit(n % 10)]
  }

  function Decimal(n: int): string
  {
    if n < 0 then "-" + Digits(-n) else Digits(n)
  }

  function PairText(p: (string, string)): string
  {
    Escaped(p.0, IN_TAG) + "=" + Escaped(p.1, IN_TAG)
  }

  function PairsText(ps: Pairs): string
    decreases |ps|
  {
    if ps == [] then ""
    else PairText(ps[0]) + if |ps| == 1 then "" else "," + PairsText(ps[1..])
  }

  function Line(p: Point): string
  {
    Escaped(p.measurement, IN_MEASUREMENT) + "," + PairsText(p.tags) + " " + PairsText(p.fields) + " "
    + Decimal(p.timestamp) + "\n"
  }

  // --------------------------------------------------------------- reading

  /** The text up to the first unescaped stop, and what follows from that stop on. */
  function ReadToken(s: string, stops: string): (r: Option<(string, string)>)
    ensures r.Some? ==> r.value.1 != "" && |r.value.1| <= |s|
    decreases |s|
  {
    if s == "" || s[0] == '\n' then None
    else if s[0] in stops then Some(("", s))
    else if s[0] == '\\' && (|s| == 1 || s[1] == '\n') then None
    else
      var n := if s[0] == '\\' then 2 else 1;
      var rest := ReadToken(s[n..], stops);
      if rest.None? then None else Some(([s[n - 1]] + rest.value.0, rest.value.1))
  }

  /** Pairs with commas between them, up to a space. */
  function ReadPairs(s: string): (r: Option<(Pairs, string)>)
    ensures r.Some? ==> r.value.1 != "" && r.value.1[0] == ' '
    decreases |s|
  {
    var key := ReadToken(s, ",= ");
    if key.None? || key.value.1[0] != '=' then None
    else
      var value := ReadToken(key.value.1[1..], ",= ");
      if value.None? || value.value.1[0] == '=' then None
      else
        var pair, rest := (key.value.0, value.value.0), value.value.1;
        if rest[0] == ' ' then Some(([pair], rest))
        else
          var more := ReadPairs(rest[1..]);
          if more.None? then None else Some(([pair] + more.value.0, more.value.1))
  }

  function ReadDigits(s: string): (r: Option<nat>)
    decreases |s|
  {
    if s == "" || !('0' <= s[|s| - 1] <= '9') then None
    else
      var d := (s[|s| - 1] - '0') as nat;
      if |s| == 1 then Some(d)
      else
        var front := ReadDigits(s[..|s| - 1]);
        if front.None? then None else Some(10 * front.value + d)
  }

  function ReadDecimal(s: string): (r: Option<int>)
  {
    if s != "" && s[0] == '-' then
      var n := ReadDigits(s[1..]);
      if n.None? then None else Some(-(n.value as int))
    else
      var n := ReadDigits(s);
      if n.None? then None else Some(n.value)
  }

  function ReadStamp(s: string): Option<int>
  {
    if s == "" || s[|s| - 1] != '\n' then None else ReadDecimal(s[..|s| - 1])
  }

  function ReadLine(s: string): Option<Point>
  {
    var m := ReadToken(s, ", ");
    if m.None? || m.value.1[0] != ',' then None
    else
      var tags := ReadPairs(m.value.1[1..]);
      if tags.None? then None
      else
        var fields := ReadPairs(tags.value.1[1..]);
        if fields.None? then None
        else
          var stamp := ReadStamp(fields.value.1[1..]);
          if stamp.None? then None
          else Some(Point(m.value.0, tags.value.0, fields.value.0, stamp.value))
  }

  // ------------------------------------------------------------ round trip

  predicate OneLine(s: string) { '\n' !in s }

  predicate OneLinePairs(ps: Pairs)
  {
    forall i :: 0 <= i < |ps| ==> OneLine(ps[i].0) && OneLine(ps[i].1)
  }

  lemma {:induction false} EscapedRead(v: string, special: string, stops: string, tail: string)
    requires '\\' in special && (forall c :: c in stops ==> c in special)
    requires '\\' !in stops && '\n' !in special
    requires tail != "" && tail[0] in stops
    ensures ReadToken(Escaped(v, special) + tail, stops) == if OneLine(v) then Some((v, tail)) else None
    decreases |v|
  {
    if v == "" {
      assert Escaped(v, special) + tail == tail;
    } else {
      var c, rest := v[0], v[1..];
      var after := Escaped(rest, special) + tail;
      EscapedRead(rest, special, stops, tail);
      assert v == [c] + rest;
      assert OneLine(v) <==> c != '\n' && OneLine(rest);
      assert Escaped(v, special) + tail == EscapedChar(c, special) + after;
      hide Escaped, OneLine;
      CharRead(c, special, stops, after);
    }
  }

  lemma {:induction false} CharRead(c: char, special: string, stops: string, after: string)
    requires '\\' in special && (forall c :: c in stops ==> c in special)
    requires '\\' !in stops && '\n' !in special
    ensures var rest := ReadToken(after, stops);
            var read := ReadToken(EscapedChar(c, special) + after, stops);
            read == if c == '\n' || rest.None? then None else Some(([c] + rest.value.0, rest.value.1))
  {
    var s := EscapedChar(c, special) + after;
    if c in special {
      assert s[0] == '\\' && s[1] == c && s[2..] == after;
    } else {
      assert s[0] == c && s[1..] == after;
    }
  }

  lemma {:induction false} PairRead(p: (string, string), tail: string)
    requires tail != "" && (tail[0] == ',' || tail[0] == ' ')
    ensures var key := ReadToken(PairText(p) + tail, ",= ");
            if !OneLine(p.0) then key == None
            else key == Some((p.0, "=" + Escaped(p.1, IN_TAG) + tail)) &&
                 ReadToken(key.value.1[1..], ",= ") == if OneLine(p.1) then Some((p.1, tail)) else None
  {
    var value := Escaped(p.1, IN_TAG) + tail;
    assert PairText(p) + tail == Escaped(p.0, IN_TAG) + ("=" + value);
    EscapedRead(p.0, IN_TAG, ",= ", "=" + value);
    assert "=" + Escaped(p.1, IN_TAG) + tail == "=" + value;
    assert ("=" + value)[1..] == value;
    EscapedRead(p.1, IN_TAG, ",= ", tail);
  }

  function AfterFirst(ps: Pairs, tail: string): string
    requires ps != []
  {
    if |ps| == 1 then tail else "," + (PairsText(ps[1..]) + tail)
  }

  lemma {:induction false} PairsTextHead(ps: Pairs)
    requires ps != []
    ensures PairsText(ps) == PairText(ps[0]) + (if |ps| == 1 then "" else "," + PairsText(ps[1..]))
  {
  }

  lemma {:induction false} PairsTextSplits(ps: Pairs, tail: string)
    requires ps != []
    ensures PairsText(ps) + tail == PairText(ps[0]) + AfterFirst(ps, tail)
  {
    hide PairText, PairsText;
    PairsTextHead(ps);
    if |ps| > 1 {
      Regroup(PairText(ps[0]), ",", PairsText(ps[1..]), tail);
      Regroup(PairText(ps[0]), "," + PairsText(ps[1..]), "", tail);
    }
  }

  lemma {:induction false} OneLinePairsSplit(ps: Pairs)
    requires ps != []
    ensures OneLinePairs(ps) <==> OneLine(ps[0].0) && OneLine(ps[0].1) && OneLinePairs(ps[1..])
  {
    hide OneLine;
    assert forall i :: 0 <= i < |ps| - 1 ==> ps[1..][i] == ps[i + 1];
    assert forall i :: 0 < i < |ps| ==> ps[i] == ps[1..][i - 1];
  }

  lemma {:induction false} NoPairs()
    ensures OneLinePairs([]) && FieldsText([]) == ""
  {
  }

  lemma {:induction false} PairsRead(ps: Pairs, tail: string)
    requires ps != [] && tail != "" && tail[0] == ' '
    ensures ReadPairs(PairsText(ps) + tail) == if OneLinePairs(ps) then Some((ps, tail)) else None
    decreases |ps|
  {
    hide ReadToken, PairText, PairsText, OneLine, OneLinePairs;
    var rest := ps[1..];
    var after := AfterFirst(ps, tail);
    PairsTextSplits(ps, tail);
    OneLinePairsSplit(ps);
    PairRead(ps[0], after);
    assert ps == [ps[0]] + rest;
    if |ps| > 1 {
      PairsRead(rest, tail);
      assert after[1..] == PairsText(rest) + tail;
    } else {
      NoPairs();
      assert ps == [ps[0]];
    }
  }

  lemma {:induction false} DigitsRead(n: nat)
    ensures ReadDigits(Digits(n)) == Some(n) && Digits(n) != "" && Digits(n)[0] != '-'
    decreases n
  {
    if n >= 10 {
      DigitsRead(n / 10);
      var s := Digits(n);
      assert s[..|s| - 1] == Digits(n / 10);
      assert s[0] == Digits(n / 10)[0];
    }
  }

  lemma {:induction false} DecimalRead(n: int)
    ensures ReadDecimal(Decimal(n)) == Some(n)
  {
    hide Digits, ReadDigits;
    if n < 0 {
      DigitsRead(-n);
      assert Decimal(n)[1..] == Digits(-n);
    } else {
      DigitsRead(n);
    }
  }

  ghost predicate NewlineFree(p: Point)
  {
    OneLine(p.measurement) && OneLinePairs(p.tags) && OneLinePairs(p.fields)
  }

  /** A line's parts, as the reader comes to them. */
  lemma {:induction false} Assembled(m: string, t: string, f: string, d: string)
    ensures var stamp := " " + d + "\n";
            var fields := " " + f + stamp;
            var tags := "," + t + fields;
            && m + "," + t + " " + f + " " + d + "\n" == m + tags
            && tags[1..] == t + fields && fields[1..] == f + stamp
            && stamp[1..] == d + "\n" && (d + "\n")[..|d|] == d
  {
  }

  /** A printed line reads back as what was printed exactly when no string in it holds a
      newline; otherwise the reader finds no line at all. */
  lemma {:induction false} LineReadsBack(p: Point)
    requires p.tags != [] && p.fields != []
    ensures ReadLine(Line(p)) == if NewlineFree(p) then Some(p) else None
  {
    hide ReadToken, Escaped, PairsText, ReadPairs, Decimal, ReadDecimal, OneLine, OneLinePairs;
    var stamp := " " + Decimal(p.timestamp) + "\n";
    var fields := " " + PairsText(p.fields) + stamp;
    var tags := "," + PairsText(p.tags) + fields;
    Assembled(Escaped(p.measurement, IN_MEASUREMENT), PairsText(p.tags), PairsText(p.fields), Decimal(p.timestamp));
    EscapedRead(p.measurement, IN_MEASUREMENT, ", ", tags);
    PairsRead(p.tags, fields);
    PairsRead(p.fields, stamp);
    DecimalRead(p.timestamp);
  }

  // --------------------------------------------------------------- payload

  predicate Sent(id: string, value: Reading, selected: set<string>)
  {
    value.Present? && id in selected
  }

  /** The fields of a sample: present readings of the selected metrics, in registry order. */
  function FieldsOf(ids: seq<string>, values: Row, selected: set<string>, format: real -> string): Pairs
    requires |ids| == |values|
    decreases |ids|
  {
    if ids == [] then []
    else
      var n := |ids| - 1;
      var front := FieldsOf(ids[..n], values[..n], selected, format);
      if Sent(ids[n], values[n], selected) then front + [(ids[n], format(values[n].value))] else front
  }

  datatype Device = Device(serial: string, model: string)

  function DeviceKey(): string { "device" }

  function ModelKey(): string { "model" }

  function Unknown(): string { "unknown" }

  function Known(s: string): string { if s == "" then Unknown() else s }

  function TagsOf(device: Device): Pairs
  {
    [(DeviceKey(), Known(device.serial)), (ModelKey(), Known(device.model))]
  }

  function PointOf(measurement: string, device: Device, ids: seq<string>, s: Sample, selected: set<string>,
                   format: real -> string): Point
    requires |ids| == |s.row|
  {
    Point(measurement, TagsOf(device), FieldsOf(ids, s.row, selected, format), s.ts)
  }

  /** Number texts hold nothing the line protocol gives a meaning to. */
  predicate Plain(s: string)
  {
    forall i :: 0 <= i < |s| ==> s[i] !in IN_TAG && s[i] != '\n'
  }

  lemma {:induction false} PlainStays(s: string)
    requires Plain(s)
    ensures Escaped(s, IN_TAG) == s && OneLine(s)
    decreases |s|
  {
    if s != "" {
      PlainStays(s[1..]);
      assert s == [s[0]] + s[1..];
    }
  }

  lemma {:induction false} GroupedText(a: string, b: string, c: string)
    ensures a + b + c == a + (b + c)
  {
  }

  lemma {:induction false} PairsCons(p: (string, string), rest: Pairs)
    ensures PairsText([p] + rest) == PairText(p) + if rest == [] then "" else "," + PairsText(rest)
  {
    hide PairText;
    assert ([p] + rest)[1..] == rest;
  }

  lemma {:induction false} NothingAfter(a: string)
    ensures a + "" == a
  {
  }

  lemma {:induction false} PairsTextAppends(ps: Pairs, p: (string, string))
    ensures PairsText(ps + [p]) == if ps == [] then PairText(p) else PairsText(ps) + "," + PairText(p)
    decreases |ps|
  {
    hide PairText, PairsText;
    if ps == [] {
      PairsCons(p, []);
      NothingAfter(PairText(p));
      assert ps + [p] == [p] + [];
    } else {
      var first, rest := ps[0], ps[1..];
      PairsTextAppends(rest, p);
      PairsCons(first, rest);
      PairsCons(first, rest + [p]);
      NothingAfter(PairText(first));
      assert [first] + rest == ps && [first] + (rest + [p]) == ps + [p];
      GroupedText(PairText(first), ",", PairsText(rest) + "," + PairText(p));
      GroupedText(PairText(first) + ",", PairsText(rest), "," + PairText(p));
      GroupedText(PairText(first), ",", PairsText(rest));
      GroupedText(PairsText(rest), ",", PairText(p));
      GroupedText(PairText(first), ",", PairText(p));
      GroupedText(PairText(first) + "," + PairsText(rest), ",", PairText(p));
    }
  }

  function DevicePrefix(): string { ",device=" }

  function ModelPrefix(): string { ",model=" }

  /** The measurement and the tags, as the line starts with them. */
  function Header(measurement: string, device: Device): string
  {
    Escaped(measurement, IN_MEASUREMENT) + DevicePrefix() + Escaped(Known(device.serial), IN_TAG)
    + ModelPrefix() + Escaped(Known(device.model), IN_TAG)
  }

  lemma {:induction false} WordsPlain()
    ensures Plain(DeviceKey()) && Plain(ModelKey()) && Plain(Unknown())
  {
  }

  lemma {:induction false} PrefixesEscaped()
    ensures DevicePrefix() == "," + Escaped(DeviceKey(), IN_TAG) + "="
    ensures ModelPrefix() == "," + Escaped(ModelKey(), IN_TAG) + "="
  {
    WordsPlain();
    hide Escaped, Plain, OneLine;
    PlainStays(DeviceKey());
    PlainStays(ModelKey());
  }

  lemma {:induction false} HeaderIsTags(measurement: string, device: Device)
    ensures Header(measurement, device) == Escaped(measurement, IN_MEASUREMENT) + "," + PairsText(TagsOf(device))
  {
    hide Escaped, Known, DevicePrefix, ModelPrefix, DeviceKey, ModelKey;
    PrefixesEscaped();
    var tags := TagsOf(device);
    assert tags[1..] == [tags[1]];
    assert PairsText([tags[1]]) == PairText(tags[1]);
  }

  /** What the fields add to the line. */
  function FieldsText(ps: Pairs): string { if ps == [] then "" else " " + PairsText(ps) }

  function Separator(fields: nat): string { if fields > 0 then "," else " " }

  lemma {:induction false} FieldsTextAppends(ps: Pairs, p: (string, string))
    ensures FieldsText(ps + [p]) == FieldsText(ps) + (Separator(|ps|) + PairText(p))
  {
    PairsTextAppends(ps, p);
    if ps == [] {
      FirstField(p);
    } else {
      hide PairText, PairsText;
      Regroup(" ", PairsText(ps), ",", PairText(p));
    }
  }

  lemma {:induction false} FirstField(p: (string, string))
    ensures FieldsText([] + [p]) == FieldsText([]) + (Separator(0) + PairText(p))
  {
    PairsTextAppends([], p);
    hide PairText, PairsText;
    assert [] + [p] == [p];
  }

  lemma {:induction false} Regroup(a: string, b: string, c: string, d: string)
    ensures a + (b + c + d) == (a + b) + (c + d)
    ensures a + (b + (c + d)) == a + b + c + d
  {
  }

  lemma {:induction false} PlainPair(key: string, number: string)
    requires Plain(number)
    ensures PairText((key, number)) == Escaped(key, IN_TAG) + "=" + number
  {
    PlainStays(number);
    hide Escaped, Plain;
  }

  lemma {:induction false} FieldAppended(header: string, ps: Pairs, key: string, number: string)
    requires Plain(number)
    ensures header + FieldsText(ps + [(key, number)])
         == header + FieldsText(ps) + Separator(|ps|) + Escaped(key, IN_TAG) + "=" + number
  {
    FieldsTextAppends(ps, (key, number));
    PlainPair(key, number);
    hide Escaped, FieldsText, Separator, PairText, Plain;
    var pair := PairText((key, number));
    Regroup(header, FieldsText(ps), Separator(|ps|), pair);
    Regroup(header + FieldsText(ps) + Separator(|ps|), Escaped(key, IN_TAG), "=", number);
  }

  /** Appends the selected present readings as fields. */
  method AppendFields(header: string, ids: seq<string>, values: Row, selected: set<string>, format: real -> string)
    returns (text: string, fields: nat)
    requires |values| == |ids| && forall v :: Plain(format(v))
    ensures var ps := FieldsOf(ids, values, selected, format);
            text == header + FieldsText(ps) && fields == |ps|
  {
    hide Escaped, PairsText, PairText, Plain, FieldsText, Separator;
    text, fields := header, 0;
    NoPairs();
    var i := 0;
    while i < |ids|
      invariant i <= |ids|
      invariant fields == |FieldsOf(ids[..i], values[..i], selected, format)|
      invariant text == header + FieldsText(FieldsOf(ids[..i], values[..i], selected, format))
    {
      assert ids[..i + 1][..i] == ids[..i] && values[..i + 1][..i] == values[..i];
      if values[i].Present? && ids[i] in selected {
        var number := format(values[i].value);
        FieldAppended(header, FieldsOf(ids[..i], values[..i], selected, format), ids[i], number);
        text := text + Separator(fields);
        fields := fields + 1;
        text := AppendEscapedTag(text, Some(ids[i]));
        text := text + "=" + number;
      }
      i := i + 1;
    }
    assert ids[..i] == ids && values[..i] == values;
  }

  method AppendTags(measurement: string, device: Device) returns (text: string)
    ensures text == Header(measurement, device)
  {
    hide Escaped;
    text := AppendEscapedMeasurement("", Some(measurement));
    text := text + DevicePrefix();
    text := AppendEscapedTag(text, Some(if device.serial != "" then device.serial else Unknown()));
    text := text + ModelPrefix();
    text := AppendEscapedTag(text, Some(if device.model != "" then device.model else Unknown()));
  }

  /** One line with every selected reading as a field, or none if there is nothing to
      send. */
  method BuildPayload(latest: Option<Sample>, measurement: string, device: Device, ids: seq<string>,
                      selected: set<string>, format: real -> string) returns (line: Option<string>)
    requires latest.Some? ==> |latest.value.row| == |ids|
    requires forall v :: Plain(format(v))
    ensures line == if latest.None? || FieldsOf(ids, latest.value.row, selected, format) == [] then None
                    else Some(Line(PointOf(measurement, device, ids, latest.value, selected, format)))
  {
    hide Escaped, PairsText, PairText, Decimal, Plain, FieldsOf, Header;
    if latest.None? {
      return None;
    }
    var text := AppendTags(measurement, device);
    var fields;
    text, fields := AppendFields(text, ids, latest.value.row, selected, format);
    if fields == 0 {
      return None;
    }
    HeaderIsTags(measurement, device);
    ghost var fs := FieldsOf(ids, latest.value.row, selected, format);
    assert FieldsText(fs) == " " + PairsText(fs);
    assert Header(measurement, device) + FieldsText(fs) == Header(measurement, device) + " " + PairsText(fs);
    line := Some(text + " " + Decimal(latest.value.ts) + "\n");
  }

  lemma {:induction false} FieldsClean(ids: seq<string>, values: Row, selected: set<string>, format: real -> string)
    requires |ids| == |values| && forall v :: Plain(format(v))
    ensures OneLinePairs(FieldsOf(ids, values, selected, format)) <==>
            forall i :: 0 <= i < |ids| && Sent(ids[i], values[i], selected) ==> OneLine(ids[i])
    decreases |ids|
  {
    if ids != [] {
      hide OneLine;
      var n := |ids| - 1;
      var front := FieldsOf(ids[..n], values[..n], selected, format);
      FieldsClean(ids[..n], values[..n], selected, format);
      assert forall i :: 0 <= i < n ==> ids[..n][i] == ids[i] && values[..n][i] == values[i];
      assert FieldsOf(ids, values, selected, format)
          == if Sent(ids[n], values[n], selected) then front + [(ids[n], format(values[n].value))] else front;
      if Sent(ids[n], values[n], selected) {
        PlainStays(format(values[n].value));
        OneMorePair(front, (ids[n], format(values[n].value)));
      }
      hide FieldsOf, OneLinePairs, Plain, Sent;
    }
  }

  lemma {:induction false} OneMorePair(ps: Pairs, p: (string, string))
    ensures OneLinePairs(ps + [p]) <==> OneLinePairs(ps) && OneLine(p.0) && OneLine(p.1)
  {
    var all := ps + [p];
    assert all[|ps|] == p;
    if OneLinePairs(all) {
      forall i | 0 <= i < |ps| ensures OneLine(ps[i].0) && OneLine(ps[i].1) {
        assert all[i] == ps[i];
      }
    }
  }

  /** What a server reads from a payload: the measurement, both tags with their defaults,
      the fields in registry order and the time, exactly when the measurement, the serial,
      the model and the ids sent are free of newlines. */
  lemma {:induction false} PayloadReadsBack(measurement: string, device: Device, ids: seq<string>, s: Sample,
                                            selected: set<string>, format: real -> string)
    requires |s.row| == |ids| && forall v :: Plain(format(v))
    requires FieldsOf(ids, s.row, selected, format) != []
    ensures var p := PointOf(measurement, device, ids, s, selected, format);
            var clean := OneLine(measurement) && OneLine(device.serial) && OneLine(device.model) &&
                         forall i :: 0 <= i < |ids| && Sent(ids[i], s.row[i], selected) ==> OneLine(ids[i]);
            ReadLine(Line(p)) == if clean then Some(p) else None
  {
    var p := PointOf(measurement, device, ids, s, selected, format);
    LineReadsBack(p);
    FieldsClean(ids, s.row, selected, format);
    TagsClean(device);
    hide FieldsOf, ReadLine, Line, OneLine, Plain, OneLinePairs;
  }

  /** These are the places of all present readings of selected metrics, in order. */
  ghost predicate Sends(ids: seq<string>, values: Row, selected: set<string>, ks: seq<nat>)
    requires |ids| == |values|
  {
    && (forall j :: 0 <= j < |ks| ==> ks[j] < |ids| && values[ks[j]].Present? && ids[ks[j]] in selected)
    && (forall i, j :: 0 <= i < j < |ks| ==> ks[i] < ks[j])
    && forall k :: 0 <= k < |ids| && values[k].Present? && ids[k] in selected ==> k in ks
  }

  lemma {:induction false} SendsNext(ids: seq<string>, values: Row, selected: set<string>, front: seq<nat>)
    requires |ids| == |values| && ids != [] && Sends(ids[..|ids| - 1], values[..|ids| - 1], selected, front)
    ensures var n := |ids| - 1;
            Sends(ids, values, selected, if values[n].Present? && ids[n] in selected then front + [n] else front)
  {
    var n := |ids| - 1;
    var ks := if values[n].Present? && ids[n] in selected then front + [n] else front;
    assert forall k :: 0 <= k < n ==> ids[..n][k] == ids[k] && values[..n][k] == values[k];
    forall k | 0 <= k < |ids| && values[k].Present? && ids[k] in selected ensures k in ks {
      if k < n {
        assert k in front;
      } else {
        assert ks[|front|] == n;
      }
    }
  }

  /** The fields are the readings at these places, each under its id. */
  ghost predicate Listed(fields: Pairs, ids: seq<string>, values: Row, format: real -> string, ks: seq<nat>)
    requires |ids| == |values|
  {
    |fields| == |ks| &&
    forall j :: 0 <= j < |ks| ==>
      ks[j] < |ids| && values[ks[j]].Present? && fields[j] == (ids[ks[j]], format(values[ks[j]].value))
  }

  lemma {:induction false} ListedLonger(
    fields: Pairs, ids: seq<string>, values: Row, format: real -> string, ks: seq<nat>, n: nat)
    requires |ids| == |values| && n <= |ids| && Listed(fields, ids[..n], values[..n], format, ks)
    ensures Listed(fields, ids, values, format, ks)
  {
    forall j | 0 <= j < |ks|
      ensures ks[j] < |ids| && values[ks[j]].Present? && fields[j] == (ids[ks[j]], format(values[ks[j]].value))
    {
      assert ids[..n][ks[j]] == ids[ks[j]] && values[..n][ks[j]] == values[ks[j]];
    }
  }

  lemma {:induction false} ListedNext(
    fields: Pairs, ids: seq<string>, values: Row, format: real -> string, ks: seq<nat>, n: nat)
    requires |ids| == |values| && n < |ids| && values[n].Present? && Listed(fields, ids, values, format, ks)
    ensures Listed(fields + [(ids[n], format(values[n].value))], ids, values, format, ks + [n])
  {
  }

  /** The fields of a payload, one by one. */
  lemma {:induction false} FieldsAre(ids: seq<string>, values: Row, selected: set<string>, format: real -> string)
    returns (ks: seq<nat>)
    requires |ids| == |values|
    ensures Sends(ids, values, selected, ks)
    ensures Listed(FieldsOf(ids, values, selected, format), ids, values, format, ks)
    decreases |ids|
  {
    if ids == [] {
      ks := [];
    } else {
      var n := |ids| - 1;
      var front := FieldsAre(ids[..n], values[..n], selected, format);
      var before := FieldsOf(ids[..n], values[..n], selected, format);
      assert FieldsOf(ids, values, selected, format)
          == if Sent(ids[n], values[n], selected) then before + [(ids[n], format(values[n].value))] else before;
      hide FieldsOf, Sends, Listed;
      SendsNext(ids, values, selected, front);
      ListedLonger(before, ids, values, format, front, n);
      if values[n].Present? && ids[n] in selected {
        ks := front + [n];
        ListedNext(before, ids, values, format, front, n);
      } else {
        ks := front;
      }
    }
  }

  /** So what a server reads from a payload without newlines is the measurement, the device
      and the model, or "unknown", those fields, and the time of the sample. */
  lemma {:induction false} PayloadSays(measurement: string, device: Device, ids: seq<string>, s: Sample,
                                       selected: set<string>, format: real -> string) returns (ks: seq<nat>)
    requires |s.row| == |ids| && forall v :: Plain(format(v))
    requires exists k :: 0 <= k < |ids| && s.row[k].Present? && ids[k] in selected
    requires OneLine(measurement) && OneLine(device.serial) && OneLine(device.model)
    requires forall k :: 0 <= k < |ids| && s.row[k].Present? && ids[k] in selected ==> OneLine(ids[k])
    ensures Sends(ids, s.row, selected, ks)
    ensures var r := ReadLine(Line(PointOf(measurement, device, ids, s, selected, format)));
            && r.Some? && r.value.measurement == measurement && r.value.timestamp == s.ts
            && r.value.tags == [("device", if device.serial == "" then "unknown" else device.serial),
                                ("model", if device.model == "" then "unknown" else device.model)]
            && |r.value.fields| == |ks|
            && forall j :: 0 <= j < |ks| ==> r.value.fields[j] == (ids[ks[j]], format(s.row[ks[j]].value))
  {
    ks := FieldsAre(ids, s.row, selected, format);
    assert ks != [];
    assert forall i :: 0 <= i < |ids| && Sent(ids[i], s.row[i], selected) ==> OneLine(ids[i]);
    PayloadReadsBack(measurement, device, ids, s, selected, format);
    hide ReadLine, Line, OneLine, Plain, FieldsOf;
  }

  /** And there is no payload exactly when there is no sample, or none of its readings both is
      there and is selected. */
  lemma {:induction false} NoPayloadIff(ids: seq<string>, row: Row, selected: set<string>, format: real -> string)
    requires |row| == |ids|
    ensures FieldsOf(ids, row, selected, format) == [] <==>
            forall k :: 0 <= k < |ids| && row[k].Present? ==> ids[k] !in selected
  {
    var ks := FieldsAre(ids, row, selected, format);
    hide FieldsOf;
    if ks != [] {
      assert ks[0] < |ids|;
    }
  }

  lemma {:induction false} KnownClean(s: string)
    ensures OneLine(Known(s)) <==> OneLine(s)
  {
    WordsPlain();
    hide Escaped, Plain, OneLine, Unknown;
    PlainStays(Unknown());
    NoNewlineInNothing();
  }

  lemma {:induction false} TagsClean(device: Device)
    ensures OneLinePairs(TagsOf(device)) <==> OneLine(device.serial) && OneLine(device.model)
  {
    WordsPlain();
    hide Escaped, Known, OneLine, Plain, DeviceKey, ModelKey;
    PlainStays(DeviceKey());
    PlainStays(ModelKey());
    KnownClean(device.serial);
    KnownClean(device.model);
    var tags := TagsOf(device);
    TwoPairs(tags[0], tags[1]);
  }

  lemma {:induction false} TwoPairs(p: (string, string), q: (string, string))
    ensures OneLinePairs([p, q]) <==> OneLine(p.0) && OneLine(p.1) && OneLine(q.0) && OneLine(q.1)
  {
    hide OneLine;
    assert [p, q][0] == p && [p, q][1] == q;
  }

  lemma {:induction false} NoNewlineInNothing()
    ensures OneLine("")
  {
  }
}
