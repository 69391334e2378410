/**
 The JSON texts of RFC 8259, sections 2 to 7, as concrete syntax trees with a
 printer: a byte string is a JSON text when some well-formed tree prints it.
 The trees carry every byte, white space included.
 */
module Rfc8259 {
  import opened Bytes

  // ---- Section 7: strings --------------------------------------------------

  datatype StrChar =
    | Raw(c: Byte)
    | Escaped(c: Byte)
    | Unicode(h1: Byte, h2: Byte, h3: Byte, h4: Byte)

  predicate IsEscape(c: Byte) {
    c == '"' || c == '\\' || c == '/' || c == 'b' || c == 'f' || c == 'n' || c == 'r' || c == 't'
  }

  // The classes of bytes that the grammar uses, by their members.
  lemma ClassMembers(c: Byte)
    ensures IsWs(c) <==> c in " \t\n\r"
    ensures IsDigit(c) <==> c in "0123456789"
    ensures IsHex(c) <==> c in "0123456789ABCDEFabcdef"
    ensures IsEscape(c) <==> c in "\"\\/bfnrt"
  {
  }

  ghost predicate ValidChar(x: StrChar) {
    match x
    case Raw(c) => ' ' <= c && c != '"' && c != '\\'
    case Escaped(c) => IsEscape(c)
    case Unicode(a, b, c, d) => IsHex(a) && IsHex(b) && IsHex(c) && IsHex(d)
  }

  ghost predicate ValidChars(xs: seq<StrChar>) {
    forall i :: 0 <= i < |xs| ==> ValidChar(xs[i])
  }

  ghost function PrintChar(x: StrChar): Bytes {
    match x
    case Raw(c) => [c]
    case Escaped(c) => ['\\', c]
    case Unicode(a, b, c, d) => ['\\', 'u', a, b, c, d]
  }

  ghost function PrintChars(xs: seq<StrChar>): Bytes {
    if xs == [] then [] else PrintChar(xs[0]) + PrintChars(xs[1..])
  }

  ghost function PrintString(xs: seq<StrChar>): Bytes {
    ['"'] + PrintChars(xs) + ['"']
  }

  // ---- Section 6: numbers, and section 3: literal names ----------------------

  datatype Number = Number(minus: Bytes, whole: Bytes, frac: Bytes, exp: Bytes)

  ghost predicate IsInt(s: Bytes) {
    s == "0" || (|s| >= 1 && '1' <= s[0] <= '9' && AllDigits(s))
  }

  ghost predicate IsFrac(s: Bytes) {
    s == [] || (|s| >= 2 && s[0] == '.' && AllDigits(s[1..]))
  }

  ghost predicate IsExp(s: Bytes) {
    || s == []
    || (|s| >= 2 && (s[0] == 'e' || s[0] == 'E') && AllDigits(s[1..]))
    || (|s| >= 3 && (s[0] == 'e' || s[0] == 'E') && (s[1] == '+' || s[1] == '-') && AllDigits(s[2..]))
  }

  ghost predicate ValidNumber(n: Number) {
    (n.minus == [] || n.minus == "-") && IsInt(n.whole) && IsFrac(n.frac) && IsExp(n.exp)
  }

  ghost function PrintNumber(n: Number): Bytes {
    n.minus + n.whole + n.frac + n.exp
  }

  ghost predicate IsNumber(s: Bytes) {
    exists n :: ValidNumber(n) && PrintNumber(n) == s
  }

  predicate IsLiteralName(s: Bytes) {
    s == "true" || s == "false" || s == "null"
  }

  // ---- Sections 3 to 5: values, objects, arrays -------------------------------

  datatype Value =
    | Text(chars: seq<StrChar>)
    | Bare(token: Bytes)
    | EmptyObject(ws: Bytes)
    | Object(members: Members)
    | EmptyArray(ws: Bytes)
    | Array(elems: Elems)
  datatype Members = LastMember(m: Member) | MoreMembers(m: Member, rest: Members)
  datatype Member = Member(w0: Bytes, key: seq<StrChar>, w1: Bytes, w2: Bytes, value: Value, w3: Bytes)
  datatype Elems = LastElem(e: Elem) | MoreElems(e: Elem, rest: Elems)
  datatype Elem = Elem(w0: Bytes, value: Value, w1: Bytes)

  // A stream of objects with optional white space around them.
  datatype Document = End(ws: Bytes) | Root(ws: Bytes, root: Value, rest: Document)

  ghost predicate ValidValue(v: Value) {
    match v
    case Text(xs) => ValidChars(xs)
    case Bare(t) => IsNumber(t) || IsLiteralName(t)
    case EmptyObject(ws) => AllWs(ws)
    case Object(ms) => ValidMembers(ms)
    case EmptyArray(ws) => AllWs(ws)
    case Array(es) => ValidElems(es)
  }

  ghost predicate ValidMembers(ms: Members) {
    match ms
    case LastMember(m) => ValidMember(m)
    case MoreMembers(m, rest) => ValidMember(m) && ValidMembers(rest)
  }

  ghost predicate ValidMember(m: Member) {
    AllWs(m.w0) && ValidChars(m.key) && AllWs(m.w1) && AllWs(m.w2) && ValidValue(m.value) && AllWs(m.w3)
  }

  ghost predicate ValidElems(es: Elems) {
    match es
    case LastElem(e) => ValidElem(e)
    case MoreElems(e, rest) => ValidElem(e) && ValidElems(rest)
  }

  ghost predicate ValidElem(e: Elem) {
    AllWs(e.w0) && ValidValue(e.value) && AllWs(e.w1)
  }

  ghost predicate ValidDocument(d: Document) {
    AllWs(d.ws) &&
    (d.Root? ==> (d.root.EmptyObject? || d.root.Object?) && ValidValue(d.root) && ValidDocument(d.rest))
  }

  ghost function PrintValue(v: Value): Bytes {
    match v
    case Text(xs) => PrintString(xs)
    case Bare(t) => t
    case EmptyObject(ws) => ['{'] + (ws + ['}'])
    case Object(ms) => ['{'] + (PrintMembers(ms) + ['}'])
    case EmptyArray(ws) => ['['] + (ws + [']'])
    case Array(es) => ['['] + (PrintElems(es) + [']'])
  }

  ghost function PrintMembers(ms: Members): Bytes {
    match ms
    case LastMember(m) => PrintMember(m)
    case MoreMembers(m, rest) => PrintMember(m) + ([','] + PrintMembers(rest))
  }

  ghost function PrintMember(m: Member): Bytes {
    m.w0 + (PrintString(m.key) + (m.w1 + ([':'] + (m.w2 + (PrintValue(m.value) + m.w3)))))
  }

  ghost function PrintElems(es: Elems): Bytes {
    match es
    case LastElem(e) => PrintElem(e)
    case MoreElems(e, rest) => PrintElem(e) + ([','] + PrintElems(rest))
  }

  ghost function PrintElem(e: Elem): Bytes {
    e.w0 + (PrintValue(e.value) + e.w1)
  }

  ghost function PrintDocument(d: Document): Bytes {
    match d
    case End(ws) => ws
    case Root(ws, root, rest) => ws + (PrintValue(root) + PrintDocument(rest))
  }

  // ---- Nesting ----------------------------------------------------------------

  ghost function Max(a: nat, b: nat): nat {
    if a < b then b else a
  }

  // The number of objects and arrays around the innermost value.
  ghost function Depth(v: Value): nat {
    match v
    case Text(_) => 0
    case Bare(_) => 0
    case EmptyObject(_) => 1
    case Object(ms) => 1 + DepthMembers(ms)
    case EmptyArray(_) => 1
    case Array(es) => 1 + DepthElems(es)
  }

  ghost function DepthMembers(ms: Members): nat {
    match ms
    case LastMember(m) => Depth(m.value)
    case MoreMembers(m, rest) => Max(Depth(m.value), DepthMembers(rest))
  }

  ghost function DepthElems(es: Elems): nat {
    match es
    case LastElem(e) => Depth(e.value)
    case MoreElems(e, rest) => Max(Depth(e.value), DepthElems(rest))
  }
}
