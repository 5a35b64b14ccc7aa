/** The JSON tree, the text it is written as, and the event machine that rebuilds trees. */
module Json {
  import opened Bytes

  /** Objects keep their members in insertion order: the order list and the map of the source in one. */
  datatype Json =
    | Null
    | Bool(b: bool)
    | Int(i: I64)
    | Str(s: string)
    | Arr(items: seq<Json>)
    | Obj(members: seq<Member>)

  datatype Member = Member(key: string, value: Json)

  // ---------------------------------------------------------------- writing

  function Escaped(s: string): string {
    if s == "" then ""
    else (if s[0] == '"' || s[0] == '\'' then ['\\', s[0]] else [s[0]]) + Escaped(s[1..])
  }

  function Digit(d: nat): char
    requires d < 10
  {
    (48 + d) as char
  }

  function Digits(n: nat): (ds: string)
    ensures |ds| >= 1
  {
    if n < 10 then [Digit(n)] else Digits(n / 10) + [Digit(n % 10)]
  }

  function Decimal(i: int): (ds: string)
    ensures |ds| >= 1
  {
    if i < 0 then "-" + Digits(-i) else Digits(i)
  }

  function Quoted(s: string): string {
    ['"'] + (s + ['"'])
  }

  function Text(t: Json): (w: string)
    ensures |w| >= 1
    decreases t, 1
  {
    match t
    case Null => "null"
    case Bool(b) => if b then "true" else "false"
    case Int(i) => Decimal(i)
    case Str(s) => Quoted(Escaped(s))
    case Arr(items) => "[" + (ItemsText(items, true) + "]")
    case Obj(members) => "{" + (MembersText(members, true) + "}")
  }

  /** The elements of an array; every one but the first is preceded by a comma and a space. */
  function ItemsText(items: seq<Json>, first: bool): string
    decreases items, 0
  {
    if items == [] then ""
    else (if first then "" else ", ") + (Text(items[0]) + ItemsText(items[1..], false))
  }

  function MembersText(members: seq<Member>, first: bool): string
    decreases members, 0
  {
    if members == [] then ""
    else (if first then "" else ",") + (PairText(members[0]) + MembersText(members[1..], false))
  }

  /** Keys are written as they are, values recursively. */
  function PairText(m: Member): string
    decreases m, 2
  {
    Quoted(m.key) + (":" + Text(m.value))
  }

  /** An array at the root is wrapped in braces. */
  function ToString(t: Json): string {
    var json := Text(t);
    if json[0] == '[' then "{" + (json + "}") else json
  }

  // ---------------------------------------------------------------- building nodes

  /** Set: a key seen before keeps its place and takes the new value. */
  function SetMember(members: seq<Member>, key: string, value: Json): seq<Member> {
    if members == [] then [Member(key, value)]
    else if members[0].key == key then [Member(key, value)] + members[1..]
    else [members[0]] + SetMember(members[1..], key, value)
  }

  ghost predicate HasKey(members: seq<Member>, key: string) {
    exists k :: 0 <= k < |members| && members[k].key == key
  }

  lemma {:induction false} SetNewKeyAppends(members: seq<Member>, key: string, value: Json)
    requires !HasKey(members, key)
    ensures SetMember(members, key, value) == members + [Member(key, value)]
  {
    if members != [] {
      forall k | 0 <= k < |members[1..]|
        ensures members[1..][k].key != key
      {
        assert members[1..][k] == members[k + 1];
      }
      SetNewKeyAppends(members[1..], key, value);
    }
  }

  /** A key seen before keeps its place, and only its value changes. */
  lemma {:induction false} SetOldKeyReplaces(members: seq<Member>, key: string, value: Json, k: nat)
    requires k < |members| && members[k].key == key && forall j :: 0 <= j < k ==> members[j].key != key
    ensures SetMember(members, key, value) == members[k := Member(key, value)]
  {
    if k > 0 {
      SetOldKeyReplaces(members[1..], key, value, k - 1);
      assert members == [members[0]] + members[1..];
    } else {
      assert members == [members[0]] + members[1..];
    }
  }

  // ---------------------------------------------------------------- the text, from the other end

  /** Elements are separated by a comma and a space, members by a comma; nothing else is written between. */
  lemma {:induction false} ItemsJoined(items: seq<Json>, x: Json, first: bool)
    ensures ItemsText(items + [x], first)
            == ItemsText(items, first) + (if first && items == [] then "" else ", ") + Text(x)
  {
    hide *;
    var all, sep := items + [x], if first then "" else ", ";
    ItemsUnfold(all, first);
    ItemsUnfold(items, first);
    ItemsUnfold(items[|items|..], false);
    if items == [] {
      assert all[1..] == items[|items|..] && all[0] == x;
      assert sep + (Text(x) + "") == "" + sep + Text(x);
    } else {
      ItemsJoined(items[1..], x, false);
      assert all[1..] == items[1..] + [x] && all[0] == items[0];
      var a, b := Text(items[0]), ItemsText(items[1..], false);
      assert sep + (a + (b + ", " + Text(x))) == (sep + (a + b)) + ", " + Text(x);
    }
  }

  lemma ItemsUnfold(items: seq<Json>, first: bool)
    ensures items == [] ==> ItemsText(items, first) == ""
    ensures items != [] ==>
              ItemsText(items, first) == (if first then "" else ", ") + (Text(items[0]) + ItemsText(items[1..], false))
  {
    hide Text;
  }

  lemma {:induction false} MembersJoined(members: seq<Member>, x: Member, first: bool)
    ensures MembersText(members + [x], first)
            == MembersText(members, first) + (if first && members == [] then "" else ",") + PairText(x)
  {
    hide *;
    var all, sep := members + [x], if first then "" else ",";
    MembersUnfold(all, first);
    MembersUnfold(members, first);
    MembersUnfold(members[|members|..], false);
    if members == [] {
      assert all[1..] == members[|members|..] && all[0] == x;
      assert sep + (PairText(x) + "") == "" + sep + PairText(x);
    } else {
      MembersJoined(members[1..], x, false);
      assert all[1..] == members[1..] + [x] && all[0] == members[0];
      var a, b := PairText(members[0]), MembersText(members[1..], false);
      assert sep + (a + (b + "," + PairText(x))) == (sep + (a + b)) + "," + PairText(x);
    }
  }

  lemma MembersUnfold(members: seq<Member>, first: bool)
    ensures members == [] ==> MembersText(members, first) == ""
    ensures members != [] ==>
              MembersText(members, first)
              == (if first then "" else ",") + (PairText(members[0]) + MembersText(members[1..], false))
  {
    hide PairText;
  }

  /** Decimal numbers have no leading zeros. */
  lemma {:induction false} NoLeadingZero(n: nat)
    ensures |Digits(n)| > 1 ==> Digits(n)[0] != '0'
    ensures n > 0 ==> Digits(n)[0] != '0'
  {
    if n >= 10 {
      NoLeadingZero(n / 10);
    }
  }

  // ---------------------------------------------------------------- the event machine

  /** The stack of open nodes, the stack of pending keys, and the caller's node once it is closed. */
  datatype Machine = Machine(stack: seq<Json>, names: seq<string>, root: Json) | Thrown

  function Top(m: Machine): Json
    requires m.Machine? && m.stack != []
  {
    m.stack[|m.stack| - 1]
  }

  function WithTop(m: Machine, t: Json): Machine
    requires m.Machine? && m.stack != []
  {
    m.(stack := m.stack[..|m.stack| - 1] + [t])
  }

  function SetData(m: Machine, data: Json): Machine {
    if m.Thrown? || m.stack == [] then Thrown
    else
      match Top(m)
      case Obj(members) =>
        if m.names == [] then Thrown
        else
          var n := |m.names| - 1;
          WithTop(m, Obj(SetMember(members, m.names[n], data))).(names := m.names[..n])
      case Arr(items) => WithTop(m, Arr(items + [data]))
      case _ => Thrown
  }

  /** BeginObject and BeginArray: an untyped node on top takes the type, otherwise a new node is pushed. */
  function Begin(m: Machine, empty: Json): Machine {
    if m.Thrown? || m.stack == [] then Thrown
    else if Top(m).Null? then WithTop(m, empty)
    else m.(stack := m.stack + [empty])
  }

  /** EndObject and EndArray: the closed node goes into the one below, or is the caller's. */
  function End(m: Machine): Machine {
    if m.Thrown? || m.stack == [] then Thrown
    else
      var node, rest := Top(m), m.stack[..|m.stack| - 1];
      if rest == [] then m.(stack := [], root := node) else SetData(m.(stack := rest), node)
  }

  function ObjectKey(m: Machine, key: string): Machine {
    if m.Thrown? then Thrown else m.(names := m.names + [key])
  }

  class SemanticFunctions {
    var stack: seq<Json>
    var nameStack: seq<string>
    var node: Json

    constructor (node: Json)
      ensures Value() == Machine([node], [], node)
    {
      stack, nameStack, this.node := [node], [], node;
    }

    ghost function Value(): Machine
      reads this
    {
      Machine(stack, nameStack, node)
    }

    method BeginNode(empty: Json)
      requires stack != []
      modifies this
      ensures Value() == Begin(old(Value()), empty)
    {
      if stack[|stack| - 1].Null? {
        stack := stack[..|stack| - 1] + [empty];
      } else {
        stack := stack + [empty];
      }
    }

    method EndNode() returns (thrown: bool)
      requires stack != []
      modifies this
      ensures thrown <==> End(old(Value())).Thrown?
      ensures !thrown ==> Value() == End(old(Value()))
    {
      var closed := stack[|stack| - 1];
      stack := stack[..|stack| - 1];
      thrown := false;
      if |stack| != 0 {
        thrown := Data(closed);
      } else {
        node := closed;
      }
    }

    method Key(str: string)
      modifies this
      ensures Value() == ObjectKey(old(Value()), str)
    {
      nameStack := nameStack + [str];
    }

    method Data(data: Json) returns (thrown: bool)
      requires stack != []
      modifies this
      ensures thrown <==> SetData(old(Value()), data).Thrown?
      ensures !thrown ==> Value() == SetData(old(Value()), data)
    {
      var top := stack[|stack| - 1];
      thrown := false;
      if top.Obj? && nameStack != [] {
        var set' := SetMember(top.members, nameStack[|nameStack| - 1], data);
        stack := stack[..|stack| - 1] + [Obj(set')];
        nameStack := nameStack[..|nameStack| - 1];
      } else if top.Arr? {
        stack := stack[..|stack| - 1] + [Arr(top.items + [data])];
      } else {
        thrown := true;
      }
    }
  }

  // ---------------------------------------------------------------- the writer

  /** EscapeString edits the string in place, stepping over each escape it inserts. */
  method EscapeString(orig: string) returns (str: string)
    ensures str == Escaped(orig)
  {
    hide Escaped;
    str := orig;
    var i := 0;
    ghost var k := 0;
    assert orig[0..] == orig && str[..0] == "";
    while i < |str|
      invariant k <= |orig| && i <= |str| && str[i..] == orig[k..]
      invariant str[..i] + Escaped(orig[k..]) == Escaped(orig)
      decreases |orig| - k
    {
      var c := str[i];
      ghost var done, rest := str[..i], orig[k + 1..];
      assert orig[k..] == [c] + rest && str == done + ([c] + rest);
      EscapedCons(c, rest);
      if c == '"' || c == '\'' {
        str := str[..i] + ['\\', c] + str[i + 1..];
        i := i + 1;
        assert str == (done + ['\\', c]) + rest;
      } else {
        assert str == (done + [c]) + rest;
      }
      i := i + 1;
      k := k + 1;
    }
    EscapedNone();
    assert orig[k..] == "" && str[..i] == str;
  }

  lemma EscapedCons(c: char, rest: string)
    ensures Escaped([c] + rest) == (if c == '"' || c == '\'' then ['\\', c] else [c]) + Escaped(rest)
  {
    assert ([c] + rest)[1..] == rest;
  }

  lemma EscapedNone()
    ensures Escaped("") == ""
  {
  }

  /** Write appends the text of the node to the stream. */
  method Write(t: Json, ss: string) returns (out: string)
    ensures out == ss + Text(t)
    decreases t, 1
  {
    hide Escaped, Decimal, ItemsText, MembersText;
    match t
    case Null => out := ss + "null";
    case Bool(b) => out := ss + (if b then "true" else "false");
    case Int(i) => out := ss + Decimal(i);
    case Str(s) =>
      var e := EscapeString(s);
      out := ss + ['"'] + e + ['"'];
      assert out == ss + Quoted(e);
    case Arr(items) =>
      out := WriteItems(items, ss + "[");
      out := out + "]";
      assert out == ss + ("[" + (ItemsText(items, true) + "]"));
    case Obj(members) =>
      out := WriteMembers(members, ss + "{");
      out := out + "}";
      assert out == ss + ("{" + (MembersText(members, true) + "}"));
  }

  /** The loop over array elements. */
  method WriteItems(items: seq<Json>, ss: string) returns (out: string)
    ensures out == ss + ItemsText(items, true)
    decreases items, 0
  {
    hide Text;
    out := ss;
    ghost var whole := ItemsText(items, true);
    for i := 0 to |items|
      invariant out + ItemsText(items[i..], i == 0) == ss + whole
    {
      var x := items[i];
      assert items[i..][0] == x && items[i..][1..] == items[i + 1..];
      ghost var before, rest := out, ItemsText(items[i + 1..], false);
      if i != 0 {
        out := out + ", ";
      }
      out := Write(x, out);
      ghost var sep := if i == 0 then "" else ", ";
      assert out == before + sep + Text(x);
      assert out + rest == before + (sep + (Text(x) + rest));
    }
    assert items[|items|..] == [];
  }

  /** The loop over object members, in insertion order. */
  method WriteMembers(members: seq<Member>, ss: string) returns (out: string)
    ensures out == ss + MembersText(members, true)
    decreases members, 0
  {
    hide Text;
    out := ss;
    ghost var whole := MembersText(members, true);
    for i := 0 to |members|
      invariant out + MembersText(members[i..], i == 0) == ss + whole
    {
      var x := members[i];
      assert members[i..][0] == x && members[i..][1..] == members[i + 1..];
      ghost var before, rest := out, MembersText(members[i + 1..], false);
      if i != 0 {
        out := out + ",";
      }
      out := WritePair(x, out);
      ghost var sep := if i == 0 then "" else ",";
      assert out == before + sep + PairText(x);
      assert out + rest == before + (sep + (PairText(x) + rest));
    }
    assert members[|members|..] == [];
  }

  method WritePair(x: Member, ss: string) returns (out: string)
    ensures out == ss + PairText(x)
    decreases x, 2
  {
    hide Text;
    out := ss + ['"'] + x.key + ['"'] + ":";
    assert out == ss + (Quoted(x.key) + ":");
    out := Write(x.value, out);
    assert out == ss + (Quoted(x.key) + (":" + Text(x.value)));
  }
}
