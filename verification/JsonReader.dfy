/** The grammar driving the event machine, and the exact domain on which reading undoes writing.
    The alternatives of every rule start with different characters, so the rules are written
    predictively; a rule that fails makes the whole parse fail. */
module JsonReader {
  import opened Bytes
  import opened Buffer
  import opened Json

  datatype Option<T> = None | Some(value: T)
  datatype Parsed = Fail | Ok(pos: nat, m: Machine)

  function Done(pos: nat, m: Machine): Parsed {
    if m.Thrown? then Fail else Ok(pos, m)
  }

  // ---------------------------------------------------------------- terminals

  /** The skipper: ISO 8859-1 white space. */
  predicate IsSpace(c: char) {
    c == ' ' || 9 as char <= c <= 13 as char || c == 0x85 as char || c == 0xA0 as char
  }

  function Skip(s: string, p: nat): (q: nat)
    requires p <= |s|
    ensures p <= q <= |s|
    decreases |s| - p
  {
    if p < |s| && IsSpace(s[p]) then Skip(s, p + 1) else p
  }

  /** The character at the next position that is not white space, if it is c. */
  predicate Sees(s: string, p: nat, c: char)
    requires p <= |s|
  {
    var q := Skip(s, p);
    q < |s| && s[q] == c
  }

  function FindQuote(s: string, p: nat): (q: nat)
    requires p <= |s|
    ensures p <= q <= |s|
    ensures q < |s| ==> s[q] == '"'
    ensures forall i :: p <= i < q ==> s[i] != '"'
    decreases |s| - p
  {
    if p < |s| && s[p] != '"' then FindQuote(s, p + 1) else p
  }

  /** A lexeme between quotes; there are no escapes. */
  function ParseString(s: string, p: nat): (r: Option<(string, nat)>)
    requires p <= |s|
    ensures r.Some? ==> p < r.value.1 <= |s| && '"' !in r.value.0
  {
    if !Sees(s, p, '"') then None
    else
      var q := Skip(s, p) + 1;
      var e := FindQuote(s, q);
      if e == |s| then None else Some((s[q..e], e + 1))
  }

  predicate IsDigit(c: char) {
    '0' <= c <= '9'
  }

  function DigitRun(s: string, p: nat): (q: nat)
    requires p <= |s|
    ensures p <= q <= |s|
    decreases |s| - p
  {
    if p < |s| && IsDigit(s[p]) then DigitRun(s, p + 1) else p
  }

  function DigitsValue(ds: string): int {
    if ds == "" then 0 else 10 * DigitsValue(ds[..|ds| - 1]) + (ds[|ds| - 1] as int - 48)
  }

  predicate StartsReal(c: char) {
    c == '.' || c == 'e' || c == 'E'
  }

  /** A 64-bit integer. A literal with a fraction or an exponent is a real, which the model does not read. */
  function ParseInt(s: string, p: nat): (r: Option<(I64, nat)>)
    requires p <= |s|
    ensures r.Some? ==> p < r.value.1 <= |s|
  {
    var neg := p < |s| && s[p] == '-';
    var d := if p < |s| && (s[p] == '-' || s[p] == '+') then p + 1 else p;
    var q := DigitRun(s, d);
    var v := if neg then -DigitsValue(s[d..q]) else DigitsValue(s[d..q]);
    if q == d || (q < |s| && StartsReal(s[q])) then None
    else if -0x8000_0000_0000_0000 <= v < 0x8000_0000_0000_0000 then Some((v, q))
    else None
  }

  predicate HasWord(s: string, p: nat, w: string) {
    p + |w| <= |s| && s[p..p + |w|] == w
  }

  // ---------------------------------------------------------------- rules

  function ParseValue(s: string, p: nat, m: Machine): (r: Parsed)
    requires p <= |s|
    ensures r.Ok? ==> p < r.pos <= |s|
    decreases |s| - p, 3
  {
    var q := Skip(s, p);
    if q == |s| then Fail
    else if s[q] == '{' then ParseObject(s, q, m)
    else if s[q] == '[' then ParseArray(s, q, m)
    else if s[q] == '"' then
      var r := ParseString(s, q);
      if r.None? then Fail else Done(r.value.1, SetData(m, Str(r.value.0)))
    else if HasWord(s, q, "true") then Done(q + 4, SetData(m, Bool(true)))
    else if HasWord(s, q, "false") then Done(q + 5, SetData(m, Bool(false)))
    else if HasWord(s, q, "null") then Done(q + 4, SetData(m, Null))
    else
      var r := ParseInt(s, q);
      if r.None? then Fail else Done(r.value.1, SetData(m, Int(r.value.0)))
  }

  function ParseObject(s: string, p: nat, m: Machine): (r: Parsed)
    requires p < |s|
    ensures r.Ok? ==> p < r.pos <= |s|
    decreases |s| - p, 2
  {
    var m1 := Begin(m, Obj([]));
    if Sees(s, p + 1, '}') then Done(Skip(s, p + 1) + 1, End(m1)) else ParseMembers(s, p + 1, m1)
  }

  /** Pairs separated by commas, up to the closing brace. */
  function ParseMembers(s: string, p: nat, m: Machine): (r: Parsed)
    requires p <= |s|
    ensures r.Ok? ==> p < r.pos <= |s|
    decreases |s| - p, 5
  {
    var r := ParsePair(s, p, m);
    if r.Fail? then Fail
    else if Sees(s, r.pos, ',') then ParseMembers(s, Skip(s, r.pos) + 1, r.m)
    else if Sees(s, r.pos, '}') then Done(Skip(s, r.pos) + 1, End(r.m))
    else Fail
  }

  function ParsePair(s: string, p: nat, m: Machine): (r: Parsed)
    requires p <= |s|
    ensures r.Ok? ==> p < r.pos <= |s|
    decreases |s| - p, 4
  {
    var key := ParseString(s, p);
    if key.None? || !Sees(s, key.value.1, ':') then Fail
    else ParseValue(s, Skip(s, key.value.1) + 1, ObjectKey(m, key.value.0))
  }

  function ParseArray(s: string, p: nat, m: Machine): (r: Parsed)
    requires p < |s|
    ensures r.Ok? ==> p < r.pos <= |s|
    decreases |s| - p, 2
  {
    var m1 := Begin(m, Arr([]));
    if Sees(s, p + 1, ']') then Done(Skip(s, p + 1) + 1, End(m1)) else ParseElements(s, p + 1, m1)
  }

  /** Values separated by commas, up to the closing bracket. */
  function ParseElements(s: string, p: nat, m: Machine): (r: Parsed)
    requires p <= |s|
    ensures r.Ok? ==> p < r.pos <= |s|
    decreases |s| - p, 5
  {
    var r := ParseValue(s, p, m);
    if r.Fail? then Fail
    else if Sees(s, r.pos, ',') then ParseElements(s, Skip(s, r.pos) + 1, r.m)
    else if Sees(s, r.pos, ']') then Done(Skip(s, r.pos) + 1, End(r.m))
    else Fail
  }

  /** The document: an object or an array read into an untyped node; what follows it is ignored. */
  function FromString(s: string): Option<Json> {
    var m := Machine([Null], [], Null);
    var q := Skip(s, 0);
    var r := if q < |s| && s[q] == '{' then ParseObject(s, q, m)
             else if q < |s| && s[q] == '[' then ParseArray(s, q, m)
             else Fail;
    if r.Fail? || r.m.Thrown? then None else Some(r.m.root)
  }

  // ---------------------------------------------------------------- which trees

  /** Keys of an object are pairwise different, as its map guarantees. */
  ghost predicate DistinctKeys(t: Json)
    decreases t
  {
    match t
    case Arr(items) => forall x :: x in items ==> DistinctKeys(x)
    case Obj(members) =>
      && (forall a, b :: 0 <= a < b < |members| ==> members[a].key != members[b].key)
      && (forall x :: x in members ==> DistinctKeys(x.value))
    case _ => true
  }

  /** No double quote in any string or key. */
  ghost predicate QuoteFree(t: Json)
    decreases t
  {
    match t
    case Str(s) => '"' !in s
    case Arr(items) => forall x :: x in items ==> QuoteFree(x)
    case Obj(members) => forall x :: x in members ==> '"' !in x.key && QuoteFree(x.value)
    case _ => true
  }

  /** No apostrophe in any string value. */
  ghost predicate ApostropheFree(t: Json)
    decreases t
  {
    match t
    case Str(s) => '\'' !in s
    case Arr(items) => forall x :: x in items ==> ApostropheFree(x)
    case Obj(members) => forall x :: x in members ==> ApostropheFree(x.value)
    case _ => true
  }

  /** The tree with every string value escaped: what reading back yields. */
  function Esc(t: Json): Json
    decreases t, 1
  {
    match t
    case Str(s) => Str(Escaped(s))
    case Arr(items) => Arr(EscItems(items))
    case Obj(members) => Obj(EscMembers(members))
    case _ => t
  }

  function EscItems(items: seq<Json>): (r: seq<Json>)
    ensures |r| == |items|
    decreases items, 0
  {
    if items == [] then [] else [Esc(items[0])] + EscItems(items[1..])
  }

  function EscMembers(members: seq<Member>): (r: seq<Member>)
    ensures |r| == |members|
    ensures forall i :: 0 <= i < |members| ==> r[i].key == members[i].key
    decreases members, 0
  {
    if members == [] then []
    else [Member(members[0].key, Esc(members[0].value))] + EscMembers(members[1..])
  }
}
