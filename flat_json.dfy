/**
 * The part of JSON that the chat intake decodes: one flat object whose keys
 * and values are strings, as Python's `json.loads` reads it (surrounding
 * whitespace allowed, later duplicate keys win, nothing after the object).
 * `Encode` writes such an object the way `json.dumps(..., ensure_ascii=False)`
 * does, which is the form the language model is asked to reply in, and
 * `DecodeEncode` proves that decoding undoes it.
 */
module FlatJson {
  import opened Wrappers

  /** The insignificant whitespace of JSON. */
  predicate IsWs(c: char) {
    c == ' ' || c == '\t' || c == '\n' || c == '\r'
  }

  /** `s` without its leading JSON whitespace. */
  function SkipWs(s: string): (r: string)
    ensures |r| <= |s|
    ensures r == [] || !IsWs(r[0])
  {
    if s != [] && IsWs(s[0]) then SkipWs(s[1..]) else s
  }

  /** The character that the two-character escape `\e` stands for. `\uXXXX` is not modelled. */
  function Unescape(e: char): Option<char> {
    match e
    case '"' => Some('"')
    case '\\' => Some('\\')
    case '/' => Some('/')
    case 'b' => Some('\U{0008}')
    case 'f' => Some('\U{000C}')
    case 'n' => Some('\n')
    case 'r' => Some('\r')
    case 't' => Some('\t')
    case _ => None
  }

  /**
   * The contents of a string literal whose opening quote has been consumed:
   * the decoded value and what follows the closing quote. Raw control
   * characters are refused, as in strict JSON.
   */
  function StringBody(s: string): (r: Option<(string, string)>)
    ensures r.Some? ==> |r.value.1| < |s|
  {
    if s == [] then None
    else if s[0] == '"' then Some(([], s[1..]))
    else if s[0] == '\\' then
      if |s| < 2 then None
      else match Unescape(s[1])
        case None => None
        case Some(c) =>
          match StringBody(s[2..])
          case None => None
          case Some(p) => Some(([c] + p.0, p.1))
    else if s[0] < ' ' then None
    else
      match StringBody(s[1..])
      case None => None
      case Some(p) => Some(([s[0]] + p.0, p.1))
  }

  /** A string literal at the start of `s`: its value and the text after it. */
  function ParseString(s: string): (r: Option<(string, string)>)
    ensures r.Some? ==> |r.value.1| < |s|
  {
    if s != [] && s[0] == '"' then StringBody(s[1..]) else None
  }

  /**
   * One member `"key": "value"` at the start of `s`: the key, the value and
   * the text after the value with its leading whitespace skipped.
   */
  function Member(s: string): (r: Option<(string, string, string)>)
    ensures r.Some? ==> |r.value.2| < |s|
  {
    match ParseString(s)
    case None => None
    case Some(kr) =>
      var afterKey := SkipWs(kr.1);
      if afterKey == [] || afterKey[0] != ':' then None
      else
        match ParseString(SkipWs(afterKey[1..]))
        case None => None
        case Some(vr) => Some((kr.0, vr.0, SkipWs(vr.1)))
  }

  /**
   * The members of an object, from the first key to the closing brace,
   * added to `acc` from left to right (so a repeated key keeps its last
   * value); also returns the text after the closing brace.
   */
  function Members(s: string, acc: map<string, string>): (r: Option<(map<string, string>, string)>)
    decreases |s|
  {
    match Member(s)
    case None => None
    case Some(m) =>
      var acc' := acc[m.0 := m.1];
      if m.2 != [] && m.2[0] == ',' then Members(SkipWs(m.2[1..]), acc')
      else if m.2 != [] && m.2[0] == '}' then Some((acc', m.2[1..]))
      else None
  }

  /** What follows the opening brace of an object, up to the end of the text. */
  function ObjectBody(u: string): (r: Option<map<string, string>>)
  {
    if u != [] && u[0] == '}' then
      if SkipWs(u[1..]) == [] then Some(map[]) else None
    else
      match Members(u, map[])
      case None => None
      case Some(mr) => if SkipWs(mr.1) == [] then Some(mr.0) else None
  }

  /** `json.loads(text)` when the result is a flat object of strings; `None` for anything else. */
  function Decode(text: string): (r: Option<map<string, string>>)
    ensures r.Some? ==> var t := SkipWs(text); t != [] && t[0] == '{'
  {
    var t := SkipWs(text);
    if t == [] || t[0] != '{' then None else ObjectBody(SkipWs(t[1..]))
  }

  // ----- Encoding -----

  /** The characters that `EscapeChar` can write and `Unescape` can read back. */
  predicate Encodable(c: char) {
    c >= ' ' || c == '\n' || c == '\r' || c == '\t' || c == '\U{0008}' || c == '\U{000C}'
  }

  predicate EncodableString(s: string) {
    forall k :: 0 <= k < |s| ==> Encodable(s[k])
  }

  function EscapeChar(c: char): string {
    match c
    case '"' => "\\\""
    case '\\' => "\\\\"
    case '\n' => "\\n"
    case '\r' => "\\r"
    case '\t' => "\\t"
    case '\U{0008}' => "\\b"
    case '\U{000C}' => "\\f"
    case _ => [c]
  }

  function Escape(s: string): string {
    if s == [] then [] else EscapeChar(s[0]) + Escape(s[1..])
  }

  function EncodeString(s: string): string {
    "\"" + Escape(s) + "\""
  }

  /** The member `"key": "value"` followed by `after`. */
  function EncodeMember(f: (string, string), after: string): string {
    EncodeString(f.0) + (": " + (EncodeString(f.1) + after))
  }

  /** The members separated by `, ` and followed by `close`. */
  function EncodeMembers(fields: seq<(string, string)>, close: string): string
    requires fields != []
  {
    if |fields| == 1 then EncodeMember(fields[0], close)
    else EncodeMember(fields[0], ", " + EncodeMembers(fields[1..], close))
  }

  /** `json.dumps(..., ensure_ascii=False)` of an object with the given members, in order. */
  function Encode(fields: seq<(string, string)>): string {
    if fields == [] then "{}" else "{" + EncodeMembers(fields, "}")
  }

  /** The dictionary that the members make, a later key overriding an earlier one. */
  function AddAll(fields: seq<(string, string)>, acc: map<string, string>): map<string, string> {
    if fields == [] then acc else AddAll(fields[1..], acc[fields[0].0 := fields[0].1])
  }

  predicate EncodableFields(fields: seq<(string, string)>) {
    forall i :: 0 <= i < |fields| ==> EncodableString(fields[i].0) && EncodableString(fields[i].1)
  }

  // ----- Round trip -----

  /** Reading back one escaped character. */
  lemma EscapeCharRoundTrip(c: char, tail: string, v: string, rest: string)
    requires Encodable(c) && StringBody(tail) == Some((v, rest))
    ensures StringBody(EscapeChar(c) + tail) == Some(([c] + v, rest))
  {
    var e := EscapeChar(c);
    if c == '"' || c == '\\' || c == '\n' || c == '\r' || c == '\t' || c == '\U{0008}' || c == '\U{000C}' {
      assert |e| == 2 && e[0] == '\\' && Unescape(e[1]) == Some(c);
      assert (e + tail)[2..] == tail;
    } else {
      assert e == [c] && c >= ' ';
      assert (e + tail)[1..] == tail;
    }
  }

  lemma {:induction false} EscapeRoundTrip(s: string, rest: string)
    requires EncodableString(s)
    ensures StringBody(Escape(s) + "\"" + rest) == Some((s, rest))
  {
    if s == [] {
      assert Escape(s) + "\"" + rest == "\"" + rest;
    } else {
      assert EncodableString(s[1..]) by {
        forall k | 0 <= k < |s[1..]| ensures Encodable(s[1..][k]) { assert s[1..][k] == s[k + 1]; }
      }
      EscapeRoundTrip(s[1..], rest);
      var tail := Escape(s[1..]) + "\"" + rest;
      assert Escape(s) + "\"" + rest == EscapeChar(s[0]) + tail;
      EscapeCharRoundTrip(s[0], tail, s[1..], rest);
      assert [s[0]] + s[1..] == s;
    }
  }

  lemma StringRoundTrip(s: string, rest: string)
    requires EncodableString(s)
    ensures ParseString(EncodeString(s) + rest) == Some((s, rest))
  {
    EscapeRoundTrip(s, rest);
    assert (EncodeString(s) + rest)[1..] == Escape(s) + "\"" + rest;
  }

  lemma SkipOneSpace(x: string)
    requires x != [] && !IsWs(x[0])
    ensures SkipWs(" " + x) == x
  {
    assert (" " + x)[1..] == x;
  }

  lemma EncodeStartsWithQuote(fields: seq<(string, string)>, close: string)
    requires fields != []
    ensures EncodeMembers(fields, close) != [] && EncodeMembers(fields, close)[0] == '"'
  {
  }

  lemma AfterColon(x: string)
    requires x != [] && x[0] == '"'
    ensures SkipWs(": " + x) == ": " + x
    ensures (": " + x)[0] == ':' && SkipWs((": " + x)[1..]) == x
  {
    assert (": " + x)[1..] == " " + x;
    SkipOneSpace(x);
  }

  lemma AfterComma(x: string)
    requires x != [] && x[0] == '"'
    ensures (", " + x)[0] == ',' && SkipWs((", " + x)[1..]) == x
  {
    assert (", " + x)[1..] == " " + x;
    SkipOneSpace(x);
  }

  /** How `Member` proceeds once a key, a colon and a value have been read. */
  lemma MemberUnfold(s: string, k: string, afterKey: string, v: string, afterValue: string)
    requires ParseString(s) == Some((k, afterKey))
    requires SkipWs(afterKey) == afterKey && afterKey != [] && afterKey[0] == ':'
    requires ParseString(SkipWs(afterKey[1..])) == Some((v, afterValue))
    ensures Member(s) == Some((k, v, SkipWs(afterValue)))
  {
  }

  /** One encoded member followed by a separator or the closing brace is read back. */
  lemma MemberRoundTrip(f: (string, string), after: string)
    requires EncodableString(f.0) && EncodableString(f.1)
    requires after != [] && (after[0] == ',' || after[0] == '}')
    ensures Member(EncodeMember(f, after)) == Some((f.0, f.1, after))
  {
    var valueText := EncodeString(f.1) + after;
    StringRoundTrip(f.0, ": " + valueText);
    AfterColon(valueText);
    StringRoundTrip(f.1, after);
    MemberUnfold(EncodeMember(f, after), f.0, ": " + valueText, f.1, after);
  }

  /** `Members` after one member that is followed by a comma. */
  lemma MembersNext(s: string, acc: map<string, string>, k: string, v: string, after: string)
    requires Member(s) == Some((k, v, after)) && after != [] && after[0] == ','
    ensures Members(s, acc) == Members(SkipWs(after[1..]), acc[k := v])
  {
  }

  /** `Members` after one member that is followed by the closing brace. */
  lemma MembersLast(s: string, acc: map<string, string>, k: string, v: string, after: string)
    requires Member(s) == Some((k, v, after)) && after != [] && after[0] == '}'
    ensures Members(s, acc) == Some((acc[k := v], after[1..]))
  {
  }

  lemma EncodableTail(fields: seq<(string, string)>)
    requires fields != [] && EncodableFields(fields)
    ensures EncodableString(fields[0].0) && EncodableString(fields[0].1)
    ensures EncodableFields(fields[1..])
  {
    forall i | 0 <= i < |fields[1..]|
      ensures EncodableString(fields[1..][i].0) && EncodableString(fields[1..][i].1)
    {
      assert fields[1..][i] == fields[i + 1];
    }
  }

  lemma {:induction false} MembersRoundTrip(fields: seq<(string, string)>, acc: map<string, string>, close: string)
    requires fields != [] && EncodableFields(fields)
    requires close != [] && close[0] == '}'
    ensures Members(EncodeMembers(fields, close), acc) == Some((AddAll(fields, acc), close[1..]))
    decreases |fields|
  {
    var f := fields[0];
    EncodableTail(fields);
    if |fields| == 1 {
      MemberRoundTrip(f, close);
      MembersLast(EncodeMembers(fields, close), acc, f.0, f.1, close);
    } else {
      var more := EncodeMembers(fields[1..], close);
      MemberRoundTrip(f, ", " + more);
      EncodeStartsWithQuote(fields[1..], close);
      AfterComma(more);
      MembersNext(EncodeMembers(fields, close), acc, f.0, f.1, ", " + more);
      MembersRoundTrip(fields[1..], acc[f.0 := f.1], close);
    }
  }

  /** `Decode` of an opening brace followed by members that `Members` reads up to the end of the text. */
  lemma DecodeUnfold(u: string, m: map<string, string>)
    requires u != [] && u[0] == '"' && Members(u, map[]) == Some((m, []))
    ensures Decode("{" + u) == Some(m)
  {
    var text := "{" + u;
    assert SkipWs(text) == text;
    assert text[1..] == u;
    assert ObjectBody(u) == Some(m);
  }

  /** An object without members is read back as the empty dictionary. */
  lemma DecodeEmpty()
    ensures Decode(Encode([])) == Some(map[])
  {
    assert "{}"[1..] == "}";
  }

  /** An object with members is read back as the dictionary they make. */
  lemma DecodeEncodeMembers(fields: seq<(string, string)>)
    requires fields != [] && EncodableFields(fields)
    ensures Decode(Encode(fields)) == Some(AddAll(fields, map[]))
  {
    var u := EncodeMembers(fields, "}");
    EncodeStartsWithQuote(fields, "}");
    MembersRoundTrip(fields, map[], "}");
    assert "}"[1..] == [];
    DecodeUnfold(u, AddAll(fields, map[]));
  }

  /** Decoding the text that `Encode` writes gives back the members as a dictionary. */
  lemma DecodeEncode(fields: seq<(string, string)>)
    requires EncodableFields(fields)
    ensures Decode(Encode(fields)) == Some(AddAll(fields, map[]))
  {
    if fields == [] {
      DecodeEmpty();
    } else {
      DecodeEncodeMembers(fields);
    }
  }
}
