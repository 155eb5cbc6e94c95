/**
 * Pagination cursors (graphene_pynamodb/utils.py, `to_cursor` and
 * `from_cursor`): a record's hash-key and range-key values, each serialised
 * the way the storage layer serialises it, written as JSON and packed with
 * the record's class name into a global id `typeName:json`.
 */
module Cursor {
  import opened Wrappers
  import opened Schema
  import Numerals

  /** `Model._serialize_value(attr, value)`: `{attr_type: serialized}`. */
  datatype Serialized = Serialized(tag: string, text: string)

  /** The cursor's data dict, as its items in insertion order. */
  type Payload = seq<(string, Serialized)>

  /**
   * `_serialize_value` for a key attribute: a string-like key keeps its
   * text, a number its decimal text; `None` is a ValueError and a value of
   * the wrong type a TypeError.
   */
  function SerializeValue(a: Attribute, v: Value): (r: Result<Serialized, Error>)
    ensures r.Ok? ==> r.value.tag == AttrType(a.kind)
    ensures v == VNone ==> r.Err?
    ensures r.Ok? <==> ((v.VStr? && (a.kind == Unicode || a.kind == UTCDateTime || a.kind == Binary))
      || (v.VNum? && a.kind == Number))
    ensures r.Ok? && v.VStr? ==> r.value.text == v.s
    ensures r.Ok? && v.VNum? ==> Numerals.ParseInt(r.value.text) == Some(v.n)
  {
    Numerals.ParseIntToString(if v.VNum? then v.n else 0);
    match v
    case VNone => Err(ValueError("Attribute '" + a.name + "' cannot be None"))
    case VStr(s) =>
      if a.kind == Unicode || a.kind == UTCDateTime || a.kind == Binary then Ok(Serialized(AttrType(a.kind), s))
      else Err(TypeError(a.name))
    case VNum(n) =>
      if a.kind == Number then Ok(Serialized(AttrType(a.kind), Numerals.IntToString(n)))
      else Err(TypeError(a.name))
    case _ => Err(TypeError(a.name))
  }

  /** `d[k] = v` on a dict held as its items: replace in place, or append. */
  function Put(p: Payload, k: string, v: Serialized): Payload {
    if |p| == 0 then [(k, v)]
    else if p[0].0 == k then [(k, v)] + p[1..]
    else [p[0]] + Put(p[1..], k, v)
  }

  function Names(p: Payload): set<string> {
    if |p| == 0 then {} else {p[0].0} + Names(p[1..])
  }

  /** No name occurs twice, as in a dict. */
  predicate UniqueNames(p: Payload) {
    |p| == 0 || (p[0].0 !in Names(p[1..]) && UniqueNames(p[1..]))
  }

  lemma {:induction false} NamesOf(p: Payload, e: (string, Serialized))
    requires e in p
    ensures e.0 in Names(p)
  {
    if p[0] != e {
      assert e in p[1..];
      NamesOf(p[1..], e);
    }
  }

  /**
   * After `d[k] = v` the dict still has unique names, gains `k`, holds
   * `(k, v)` and keeps every other item.
   */
  lemma {:induction false} PutSpec(p: Payload, k: string, v: Serialized)
    requires UniqueNames(p)
    ensures UniqueNames(Put(p, k, v))
    ensures Names(Put(p, k, v)) == Names(p) + {k}
    ensures forall e :: e in Put(p, k, v) <==> e == (k, v) || (e in p && e.0 != k)
  {
    if |p| > 0 {
      if p[0].0 == k {
        forall e | e in p[1..] ensures e.0 != k {
          NamesOf(p[1..], e);
        }
        assert forall e :: e in p <==> e == p[0] || e in p[1..];
      } else {
        PutSpec(p[1..], k, v);
        assert forall e :: e in p <==> e == p[0] || e in p[1..];
        assert forall e :: e in Put(p, k, v) <==> e == p[0] || e in Put(p[1..], k, v);
      }
    }
  }

  predicate IsKeyAttribute(a: Attribute) {
    a.isHashKey || a.isRangeKey
  }

  /**
   * The data dict `to_cursor` builds from the first `|attrs|` attributes:
   * `data[name] = _serialize_value(attr, getattr(item, name))` for each
   * hash-key or range-key attribute, in attribute order.
   */
  function KeyPayload(item: Record, attrs: seq<Attribute>): Result<Payload, Error>
    decreases |attrs|
  {
    if |attrs| == 0 then Ok([])
    else
      var a := attrs[|attrs| - 1];
      match KeyPayload(item, attrs[..|attrs| - 1])
      case Err(e) => Err(e)
      case Ok(p) =>
        if !IsKeyAttribute(a) then Ok(p)
        else match SerializeValue(a, FieldOf(item, a.name))
          case Err(e) => Err(e)
          case Ok(s) => Ok(Put(p, a.name, s))
  }

  /**
   * The payload holds exactly the hash-key and range-key attributes, once
   * each, and each value is that attribute's serialised value.
   */
  lemma {:induction false} KeyPayloadSpec(item: Record, attrs: seq<Attribute>)
    requires KeyPayload(item, attrs).Ok?
    ensures UniqueNames(KeyPayload(item, attrs).value)
    ensures Names(KeyPayload(item, attrs).value) == set a | a in attrs && IsKeyAttribute(a) :: a.name
    ensures forall e :: e in KeyPayload(item, attrs).value ==>
      exists a :: a in attrs && IsKeyAttribute(a) && a.name == e.0 && SerializeValue(a, FieldOf(item, a.name)) == Ok(e.1)
    decreases |attrs|
  {
    if |attrs| > 0 {
      var init := attrs[..|attrs| - 1];
      var a := attrs[|attrs| - 1];
      KeyPayloadSpec(item, init);
      assert attrs == init + [a];
      var p := KeyPayload(item, init).value;
      if IsKeyAttribute(a) {
        PutSpec(p, a.name, SerializeValue(a, FieldOf(item, a.name)).value);
      }
    }
  }

  // ---------------------------------------------------------------------------
  // JSON text of the payload, as `json.dumps` writes it and `json.loads` reads it

  function Escape(c: char): string {
    if c == '"' then "\\\""
    else if c == '\\' then "\\\\"
    else if c == '\n' then "\\n"
    else if c == '\r' then "\\r"
    else if c == '\t' then "\\t"
    else [c]
  }

  function EscapeAll(s: string): string {
    if |s| == 0 then "" else Escape(s[0]) + EscapeAll(s[1..])
  }

  function Quote(s: string): string {
    "\"" + EscapeAll(s) + "\""
  }

  function DumpEntry(e: (string, Serialized)): string {
    Quote(e.0) + ": " + DumpInner(e.1)
  }

  function DumpEntries(p: Payload): string {
    if |p| == 0 then ""
    else if |p| == 1 then DumpEntry(p[0])
    else DumpEntry(p[0]) + ", " + DumpEntries(p[1..])
  }

  /** `json.dumps(data)`, with its default `", "` and `": "` separators. */
  function Dumps(p: Payload): string {
    "{" + DumpEntries(p) + "}"
  }

  predicate IsWs(c: char) {
    c == ' ' || c == '\t' || c == '\n' || c == '\r'
  }

  function SkipWs(s: string): (r: string)
    ensures |r| <= |s|
    ensures |r| > 0 ==> !IsWs(r[0])
  {
    if |s| > 0 && IsWs(s[0]) then SkipWs(s[1..]) else s
  }

  function Unescape(c: char): Option<char> {
    if c == '"' then Some('"')
    else if c == '\\' then Some('\\')
    else if c == '/' then Some('/')
    else if c == 'n' then Some('\n')
    else if c == 'r' then Some('\r')
    else if c == 't' then Some('\t')
    else if c == 'b' then Some('\U{8}')
    else if c == 'f' then Some('\U{C}')
    else None
  }

  /** The rest of a JSON string after its opening quote: its value and the text after the closing quote. */
  function StringBody(s: string): (r: Option<(string, string)>)
    ensures r.Some? ==> |r.value.1| < |s|
    decreases |s|
  {
    if |s| == 0 then None
    else if s[0] == '"' then Some(("", s[1..]))
    else if s[0] == '\\' then
      if |s| < 2 || Unescape(s[1]).None? then None
      else match StringBody(s[2..])
        case None => None
        case Some((v, rest)) => Some(([Unescape(s[1]).value] + v, rest))
    else match StringBody(s[1..])
      case None => None
      case Some((v, rest)) => Some(([s[0]] + v, rest))
  }

  function ParseString(s: string): (r: Option<(string, string)>)
    ensures r.Some? ==> |r.value.1| < |s|
  {
    if |s| > 0 && s[0] == '"' then StringBody(s[1..]) else None
  }

  /** `rest` after `c`, once leading whitespace is skipped. */
  function Expect(s: string, c: char): (r: Option<string>)
    ensures r.Some? ==> |r.value| < |s|
  {
    var t := SkipWs(s);
    if |t| > 0 && t[0] == c then Some(t[1..]) else None
  }

  /** An inner object `{"tag": "text"}`. */
  function ParseInner(s: string): (r: Option<(Serialized, string)>)
    ensures r.Some? ==> |r.value.1| < |s|
  {
    match Expect(s, '{')
    case None => None
    case Some(s1) =>
      match ParseString(SkipWs(s1))
      case None => None
      case Some((tag, s2)) =>
        match Expect(s2, ':')
        case None => None
        case Some(s3) =>
          match ParseString(SkipWs(s3))
          case None => None
          case Some((text, s4)) =>
            match Expect(s4, '}')
            case None => None
            case Some(s5) => Some((Serialized(tag, text), s5))
  }

  /** One member `"name": {"tag": "text"}`. */
  function ParseMember(s: string): (r: Option<((string, Serialized), string)>)
    ensures r.Some? ==> |r.value.1| < |s|
  {
    match ParseString(SkipWs(s))
    case None => None
    case Some((name, s1)) =>
      match Expect(s1, ':')
      case None => None
      case Some(s2) =>
        match ParseInner(s2)
        case None => None
        case Some((v, s3)) => Some(((name, v), s3))
  }

  /** Members separated by commas, up to and including the closing brace. */
  function ParseMembers(s: string): (r: Option<(Payload, string)>)
    ensures r.Some? ==> |r.value.1| < |s|
    decreases |s|
  {
    match ParseMember(s)
    case None => None
    case Some((m, s1)) =>
      match Expect(s1, ',')
      case Some(s2) =>
        (match ParseMembers(s2)
         case None => None
         case Some((ms, s3)) => Some(([m] + ms, s3)))
      case None =>
        match Expect(s1, '}')
        case None => None
        case Some(s2) => Some(([m], s2))
  }

  /**
   * `json.loads(data)` for the shape `to_cursor` writes: an object of
   * objects of strings. Anything else is the ValueError of a malformed cursor.
   */
  function Loads(s: string): Result<Payload, Error> {
    match Expect(s, '{')
    case None => Err(ValueError(s))
    case Some(s1) =>
      match Expect(s1, '}')
      case Some(s2) => if SkipWs(s2) == "" then Ok([]) else Err(ValueError(s))
      case None =>
        match ParseMembers(s1)
        case None => Err(ValueError(s))
        case Some((p, s2)) => if SkipWs(s2) == "" then Ok(p) else Err(ValueError(s))
  }

  lemma SkipWsNonWs(s: string)
    requires |s| > 0 && !IsWs(s[0])
    ensures SkipWs(s) == s
  {
  }

  lemma SkipWsSpace(t: string)
    ensures SkipWs(" " + t) == SkipWs(t)
  {
    assert (" " + t)[1..] == t;
  }

  /** `c` found at the front, possibly after one space. */
  lemma ExpectAt(c: char, rest: string)
    requires !IsWs(c)
    ensures Expect([c] + rest, c) == Some(rest)
    ensures Expect(" " + [c] + rest, c) == Some(rest)
  {
    SkipWsSpace([c] + rest);
    assert " " + [c] + rest == " " + ([c] + rest);
    assert ([c] + rest)[1..] == rest;
  }

  /** Reading one escaped character gives back that character. */
  lemma StringBodyStep(c: char, tail: string)
    ensures StringBody(Escape(c) + tail) ==
      match StringBody(tail)
      case None => None
      case Some((v, rest)) => Some(([c] + v, rest))
  {
    var s := Escape(c) + tail;
    if |Escape(c)| == 1 {
      assert Escape(c) == [c] && s[0] == c && s[1..] == tail;
    } else {
      assert s[0] == '\\' && s[1] == Escape(c)[1] && s[2..] == tail;
    }
  }

  lemma {:induction false} StringBodyEscaped(x: string, rest: string)
    ensures StringBody(EscapeAll(x) + "\"" + rest) == Some((x, rest))
    decreases |x|
  {
    if |x| == 0 {
      assert EscapeAll(x) + "\"" + rest == "\"" + rest;
      assert ("\"" + rest)[1..] == rest;
    } else {
      var tail := EscapeAll(x[1..]) + "\"" + rest;
      StringBodyEscaped(x[1..], rest);
      assert EscapeAll(x) + "\"" + rest == Escape(x[0]) + tail;
      StringBodyStep(x[0], tail);
      assert [x[0]] + x[1..] == x;
    }
  }

  /** A quoted string reads back, and no whitespace is skipped before it. */
  lemma ParseQuoted(x: string, rest: string)
    ensures ParseString(Quote(x) + rest) == Some((x, rest))
    ensures SkipWs(Quote(x) + rest) == Quote(x) + rest
  {
    var s := Quote(x) + rest;
    assert s == "\"" + (EscapeAll(x) + "\"" + rest);
    assert s[1..] == EscapeAll(x) + "\"" + rest;
    StringBodyEscaped(x, rest);
    SkipWsNonWs(s);
  }

  function DumpInner(e: Serialized): string {
    "{" + Quote(e.tag) + ": " + Quote(e.text) + "}"
  }

  // Regrouping concatenations, on plain strings

  lemma Assoc3(a: string, b: string, r: string)
    ensures (a + b) + r == a + (b + r)
  {
  }

  lemma Assoc4(a: string, b: string, c: string, r: string)
    ensures ((a + b) + c) + r == a + (b + (c + r))
  {
  }

  lemma Assoc6(a: string, b: string, c: string, d: string, e: string, r: string)
    ensures ((((a + b) + c) + d) + e) + r == a + (b + (c + (d + (e + r))))
  {
  }

  lemma InnerSplit(e: Serialized, rest: string)
    ensures DumpInner(e) + rest == "{" + (Quote(e.tag) + (": " + (Quote(e.text) + ("}" + rest))))
  {
    Assoc6("{", Quote(e.tag), ": ", Quote(e.text), "}", rest);
  }

  lemma EntrySplit(e: (string, Serialized), rest: string)
    ensures DumpEntry(e) + rest == Quote(e.0) + (": " + (DumpInner(e.1) + rest))
  {
    Assoc4(Quote(e.0), ": ", DumpInner(e.1), rest);
  }

  lemma AssocTail(a: string, b: string, c: string, d: string, r: string)
    ensures (((a + b) + c) + d) + r == a + (b + ((c + d) + r))
  {
  }

  lemma DumpEntriesSplit(p: Payload, rest: string)
    requires |p| > 0
    ensures |p| == 1 ==> DumpEntries(p) + "}" + rest == DumpEntry(p[0]) + ("}" + rest)
    ensures |p| > 1 ==> DumpEntries(p) + "}" + rest == DumpEntry(p[0]) + (", " + (DumpEntries(p[1..]) + "}" + rest))
  {
    var d := DumpEntry(p[0]);
    if |p| == 1 {
      assert DumpEntries(p) == d;
      Assoc3(d, "}", rest);
    } else {
      var t := DumpEntries(p[1..]);
      assert DumpEntries(p) == d + ", " + t;
      AssocTail(d, ", ", t, "}", rest);
    }
  }

  // Single steps of the parsers, over any text

  /** A separator of `json.dumps`, `": "` or `", "`, is read up to its space. */
  lemma ExpectSeparator(c: char, t: string)
    requires c == ':' || c == ','
    ensures Expect([c, ' '] + t, c) == Some(" " + t)
  {
    assert [c, ' '] + t == [c] + (" " + t);
    ExpectAt(c, " " + t);
  }

  lemma ExpectCloseOnly(rest: string)
    ensures Expect("}" + rest, ',') == None
    ensures Expect("}" + rest, '}') == Some(rest)
  {
    assert "}" + rest == ['}'] + rest;
    ExpectAt('}', rest);
  }

  lemma ExpectOpen(t: string)
    ensures Expect("{" + t, '{') == Some(t)
  {
    assert "{" + t == ['{'] + t;
    ExpectAt('{', t);
  }

  lemma ParseInnerSpace(t: string)
    ensures ParseInner(" " + t) == ParseInner(t)
  {
    SkipWsSpace(t);
    assert Expect(" " + t, '{') == Expect(t, '{');
  }

  lemma ParseMembersSpace(t: string)
    ensures ParseMembers(" " + t) == ParseMembers(t)
  {
    SkipWsSpace(t);
    assert ParseMember(" " + t) == ParseMember(t);
  }

  lemma ParseInnerSteps(s: string, s1: string, tag: string, s2: string, s3: string, text: string, s4: string, s5: string)
    requires Expect(s, '{') == Some(s1)
    requires ParseString(SkipWs(s1)) == Some((tag, s2))
    requires Expect(s2, ':') == Some(s3)
    requires ParseString(SkipWs(s3)) == Some((text, s4))
    requires Expect(s4, '}') == Some(s5)
    ensures ParseInner(s) == Some((Serialized(tag, text), s5))
  {
  }

  lemma ParseMemberSteps(s: string, name: string, s1: string, s2: string, v: Serialized, s3: string)
    requires ParseString(SkipWs(s)) == Some((name, s1))
    requires Expect(s1, ':') == Some(s2)
    requires ParseInner(s2) == Some((v, s3))
    ensures ParseMember(s) == Some(((name, v), s3))
  {
  }

  /** A member, then the closing brace: the list ends. */
  lemma ParseMembersEnd(s: string, m: (string, Serialized), u: string, rest: string)
    requires ParseMember(s) == Some((m, u))
    requires Expect(u, ',') == None && Expect(u, '}') == Some(rest)
    ensures ParseMembers(s) == Some(([m], rest))
  {
  }

  /** A member, then a comma: the list goes on with the members after it. */
  lemma ParseMembersCons(s: string, m: (string, Serialized), u: string, v: string, ms: Payload, rest: string)
    requires ParseMember(s) == Some((m, u))
    requires Expect(u, ',') == Some(v)
    requires ParseMembers(v) == Some((ms, rest))
    ensures ParseMembers(s) == Some(([m] + ms, rest))
  {
  }

  lemma LoadsEmpty(s: string, s1: string, s2: string)
    requires Expect(s, '{') == Some(s1) && Expect(s1, '}') == Some(s2) && SkipWs(s2) == ""
    ensures Loads(s) == Ok([])
  {
  }

  lemma LoadsMembers(s: string, s1: string, p: Payload, s2: string)
    requires Expect(s, '{') == Some(s1) && Expect(s1, '}') == None
    requires ParseMembers(s1) == Some((p, s2)) && SkipWs(s2) == ""
    ensures Loads(s) == Ok(p)
  {
  }

  // The written forms read back

  lemma ParseInnerDumped(e: Serialized, rest: string)
    ensures ParseInner(DumpInner(e) + rest) == Some((e, rest))
  {
    var w := "}" + rest;
    var z := Quote(e.text) + w;
    var y := ": " + z;
    var x := Quote(e.tag) + y;
    InnerSplit(e, rest);
    ExpectOpen(x);
    ParseQuoted(e.tag, y);
    assert y == [':', ' '] + z;
    ExpectSeparator(':', z);
    SkipWsSpace(z);
    ParseQuoted(e.text, w);
    ExpectCloseOnly(rest);
    ParseInnerSteps(DumpInner(e) + rest, x, e.tag, y, " " + z, e.text, w, rest);
  }

  lemma ParseMemberDumped(e: (string, Serialized), rest: string)
    ensures ParseMember(DumpEntry(e) + rest) == Some((e, rest))
  {
    var d := DumpInner(e.1) + rest;
    EntrySplit(e, rest);
    ParseQuoted(e.0, ": " + d);
    assert ": " + d == [':', ' '] + d;
    ExpectSeparator(':', d);
    ParseInnerSpace(d);
    ParseInnerDumped(e.1, rest);
    ParseMemberSteps(DumpEntry(e) + rest, e.0, ": " + d, " " + d, e.1, rest);
  }

  /** The last written member, then the closing brace. */
  lemma ParseMembersLast(e: (string, Serialized), rest: string)
    ensures ParseMembers(DumpEntry(e) + ("}" + rest)) == Some(([e], rest))
  {
    ParseMemberDumped(e, "}" + rest);
    ExpectCloseOnly(rest);
    ParseMembersEnd(DumpEntry(e) + ("}" + rest), e, "}" + rest, rest);
  }

  /** A written member, the separator, then members that read back. */
  lemma ParseMembersNext(e: (string, Serialized), tail: string, ms: Payload, rest: string)
    requires ParseMembers(tail) == Some((ms, rest))
    ensures ParseMembers(DumpEntry(e) + (", " + tail)) == Some(([e] + ms, rest))
  {
    ParseMemberDumped(e, ", " + tail);
    assert ", " + tail == [',', ' '] + tail;
    ExpectSeparator(',', tail);
    ParseMembersSpace(tail);
    ParseMembersCons(DumpEntry(e) + (", " + tail), e, ", " + tail, " " + tail, ms, rest);
  }

  lemma ParseMembersDumpedOne(p: Payload, rest: string)
    requires |p| == 1
    ensures ParseMembers(DumpEntries(p) + "}" + rest) == Some((p, rest))
  {
    DumpEntriesSplit(p, rest);
    ParseMembersLast(p[0], rest);
    assert [p[0]] == p;
  }

  lemma ParseMembersDumpedMore(p: Payload, rest: string)
    requires |p| > 1
    requires ParseMembers(DumpEntries(p[1..]) + "}" + rest) == Some((p[1..], rest))
    ensures ParseMembers(DumpEntries(p) + "}" + rest) == Some((p, rest))
  {
    DumpEntriesSplit(p, rest);
    ParseMembersNext(p[0], DumpEntries(p[1..]) + "}" + rest, p[1..], rest);
    assert [p[0]] + p[1..] == p;
  }

  lemma {:induction false} ParseMembersDumped(p: Payload, rest: string)
    requires |p| > 0
    ensures ParseMembers(DumpEntries(p) + "}" + rest) == Some((p, rest))
    decreases |p|
  {
    if |p| == 1 {
      ParseMembersDumpedOne(p, rest);
    } else {
      ParseMembersDumped(p[1..], rest);
      ParseMembersDumpedMore(p, rest);
    }
  }

  /** `json.loads(json.dumps(data)) == data`. */
  lemma LoadsDumps(p: Payload)
    ensures Loads(Dumps(p)) == Ok(p)
  {
    var body := DumpEntries(p) + "}";
    Assoc3("{", DumpEntries(p), "}");
    ExpectOpen(body);
    if |p| == 0 {
      assert body == "}" + "";
      ExpectCloseOnly("");
      LoadsEmpty(Dumps(p), body, "");
    } else {
      ParseMembersDumped(p, "");
      assert DumpEntries(p) + "}" + "" == body;
      DumpEntriesSplit(p, "");
      var y := if |p| == 1 then "}" + "" else ", " + (DumpEntries(p[1..]) + "}" + "");
      EntrySplit(p[0], y);
      assert body[0] == '"';
      SkipWsNonWs(body);
      LoadsMembers(Dumps(p), body, p, "");
    }
  }

  // ---------------------------------------------------------------------------
  // Global ids and the cursor itself

  /** `to_global_id(type_name, data)`, without its base64 layer: `type_name:data`. */
  function ToGlobalId(typeName: string, data: string): string {
    typeName + ":" + data
  }

  function IndexOfColon(s: string): (r: Option<nat>)
    ensures r.Some? ==> r.value < |s| && s[r.value] == ':' && forall j :: 0 <= j < r.value ==> s[j] != ':'
    ensures r.None? ==> forall j :: 0 <= j < |s| ==> s[j] != ':'
  {
    if |s| == 0 then None
    else if s[0] == ':' then Some(0)
    else match IndexOfColon(s[1..])
      case None => None
      case Some(i) => Some(i + 1)
  }

  /** `from_global_id(token)`: split at the first colon; ValueError when there is none. */
  function FromGlobalId(token: string): Result<(string, string), Error> {
    match IndexOfColon(token)
    case None => Err(ValueError(token))
    case Some(i) => Ok((token[..i], token[i + 1..]))
  }

  /** A global id decodes to its parts exactly when the type name has no colon. */
  lemma GlobalIdRoundTrip(typeName: string, data: string)
    ensures FromGlobalId(ToGlobalId(typeName, data)) == Ok((typeName, data)) <==> ':' !in typeName
  {
    var t := ToGlobalId(typeName, data);
    assert t[|typeName|] == ':';
    assert forall j :: 0 <= j < |typeName| ==> t[j] == typeName[j];
    if ':' !in typeName {
      assert IndexOfColon(t) == Some(|typeName|);
      assert t[..|typeName|] == typeName && t[|typeName| + 1..] == data;
    } else {
      var j :| 0 <= j < |typeName| && typeName[j] == ':';
      assert IndexOfColon(t).value <= j;
    }
  }

  /** The payload `to_cursor` writes for `item`. */
  function CursorPayload(item: Record): Result<Payload, Error> {
    KeyPayload(item, item.model.attributes)
  }

  /** The cursor `to_cursor` returns for `item`. */
  function CursorOf(item: Record): Result<string, Error> {
    match CursorPayload(item)
    case Err(e) => Err(e)
    case Ok(p) => Ok(ToGlobalId(item.model.name, Dumps(p)))
  }

  /** `from_cursor(cursor)`: the type name and the decoded data dict. */
  function FromCursor(cursor: string): Result<(string, Payload), Error> {
    match FromGlobalId(cursor)
    case Err(e) => Err(e)
    case Ok((model, data)) =>
      match Loads(data)
      case Err(e) => Err(e)
      case Ok(p) => Ok((model, p))
  }

  /**
   * `to_cursor(item)`: the key attributes' values serialised into the data
   * dict in attribute order, then `to_global_id(type(item).__name__, json.dumps(data))`.
   */
  method ToCursor(item: Record) returns (r: Result<string, Error>)
    ensures r == CursorOf(item)
  {
    var attrs := item.model.attributes;
    var data: Payload := [];
    var i := 0;
    while i < |attrs|
      invariant 0 <= i <= |attrs|
      invariant KeyPayload(item, attrs[..i]) == Ok(data)
    {
      assert attrs[..i + 1][..i] == attrs[..i];
      var a := attrs[i];
      if IsKeyAttribute(a) {
        var s := SerializeValue(a, FieldOf(item, a.name));
        if s.Err? {
          assert KeyPayload(item, attrs[..i + 1]) == Err(s.error);
          KeyPayloadPrefixErr(item, attrs, i + 1);
          return Err(s.error);
        }
        data := Put(data, a.name, s.value);
      }
      i := i + 1;
    }
    assert attrs[..i] == attrs;
    r := Ok(ToGlobalId(item.model.name, Dumps(data)));
  }

  /** Once a prefix of the attributes fails to serialise, the whole payload fails with the same error. */
  lemma {:induction false} KeyPayloadPrefixErr(item: Record, attrs: seq<Attribute>, n: nat)
    requires n <= |attrs|
    requires KeyPayload(item, attrs[..n]).Err?
    ensures KeyPayload(item, attrs) == KeyPayload(item, attrs[..n])
    decreases |attrs| - n
  {
    if n < |attrs| {
      assert attrs[..n + 1][..n] == attrs[..n];
      KeyPayloadPrefixErr(item, attrs, n + 1);
    } else {
      assert attrs[..n] == attrs;
    }
  }

  /**
   * `from_cursor(to_cursor(item))` gives back the class name and the key
   * payload, for every class name without a colon (every Python class name).
   */
  lemma CursorRoundTrip(item: Record)
    requires ':' !in item.model.name
    requires CursorPayload(item).Ok?
    ensures FromCursor(CursorOf(item).value) == Ok((item.model.name, CursorPayload(item).value))
  {
    var p := CursorPayload(item).value;
    GlobalIdRoundTrip(item.model.name, Dumps(p));
    LoadsDumps(p);
  }
}
