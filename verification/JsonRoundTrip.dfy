/** Reading undoes writing on exactly the object-rooted trees without quotes and apostrophes. */
module JsonRoundTrip {
  import opened Bytes
  import opened Buffer
  import opened Json
  import opened JsonReader

  // ---------------------------------------------------------------- terminals

  lemma AtFirst(s: string, p: nat, w: string)
    requires At(s, p, w) && w != ""
    ensures p < |s| && s[p] == w[0] && p + |w| <= |s|
  {
    AtIsSlice(s, p, w);
  }

  lemma NoSkip(s: string, p: nat)
    requires p < |s| && !IsSpace(s[p])
    ensures Skip(s, p) == p
  {
  }

  /** The character c stands at p: the rule for it applies there. */
  lemma SeesHere(s: string, p: nat, c: char)
    requires p < |s| && !IsSpace(s[p])
    ensures Skip(s, p) == p
    ensures Sees(s, p, c) <==> s[p] == c
  {
  }

  lemma QuotedAt(s: string, p: nat, w: string)
    requires At(s, p, Quoted(w)) && '"' !in w
    ensures p < |s| && s[p] == '"'
    ensures ParseString(s, p) == Some((w, p + |Quoted(w)|))
  {
    hide At, FindQuote, Skip, Sees;
    var n := |w|;
    AtSplit(s, p, ['"'], w + ['"']);
    AtSplit(s, p + 1, w, ['"']);
    AtFirst(s, p, ['"']);
    AtFirst(s, p + 1 + n, ['"']);
    AtIsSlice(s, p + 1, w);
    SeesHere(s, p, '"');
    forall i | p + 1 <= i < p + 1 + n
      ensures s[i] != '"'
    {
      assert s[i] == s[p + 1..p + 1 + n][i - (p + 1)];
      assert s[i] in w;
    }
    FirstQuote(s, p + 1, n);
  }

  lemma FirstQuote(s: string, p: nat, n: nat)
    requires p + n < |s| && s[p + n] == '"' && forall i :: p <= i < p + n ==> s[i] != '"'
    ensures FindQuote(s, p) == p + n
  {
    hide FindQuote;
  }

  lemma {:induction false} DigitsAreDigits(n: nat)
    ensures forall i :: 0 <= i < |Digits(n)| ==> IsDigit(Digits(n)[i])
    ensures DigitsValue(Digits(n)) == n
  {
    if n >= 10 {
      DigitsAreDigits(n / 10);
      var ds, init := Digits(n), Digits(n / 10);
      assert ds[..|ds| - 1] == init;
    } else {
      assert Digits(n)[..0] == "";
    }
  }

  lemma {:induction false} RunOf(s: string, p: nat, n: nat)
    requires p + n <= |s| && forall i :: p <= i < p + n ==> IsDigit(s[i])
    requires p + n < |s| ==> !IsDigit(s[p + n])
    ensures DigitRun(s, p) == p + n
    decreases n
  {
    if n > 0 {
      RunOf(s, p + 1, n - 1);
    }
  }

  /** What may follow a value: nothing that would extend a number. */
  ghost predicate Follows(s: string, p: nat) {
    p < |s| ==> !IsDigit(s[p]) && !StartsReal(s[p])
  }

  lemma DigitsAt(s: string, p: nat, n: nat)
    requires At(s, p, Digits(n)) && Follows(s, p + |Digits(n)|)
    ensures p < |s| && IsDigit(s[p])
    ensures DigitRun(s, p) == p + |Digits(n)| <= |s|
    ensures DigitsValue(s[p..p + |Digits(n)|]) == n
  {
    hide Digits, DigitRun, At, DigitsValue;
    var ds := Digits(n);
    AtIsSlice(s, p, ds);
    DigitsAreDigits(n);
    forall k | p <= k < p + |ds|
      ensures IsDigit(s[k])
    {
      assert s[k] == s[p..p + |ds|][k - p];
    }
    RunOf(s, p, |ds|);
  }

  lemma IntAt(s: string, p: nat, i: I64)
    requires At(s, p, Decimal(i)) && Follows(s, p + |Decimal(i)|)
    ensures ParseInt(s, p) == Some((i, p + |Decimal(i)|))
    ensures p < |s| && (s[p] == '-' || IsDigit(s[p]))
  {
    hide Digits, DigitRun, DigitsValue, At;
    var v: int := i;
    if v < 0 {
      AtFirst(s, p, Decimal(i));
      AtSplit(s, p, "-", Digits(-v));
      DigitsAt(s, p + 1, -v);
    } else {
      DigitsAt(s, p, i);
    }
  }

  // ---------------------------------------------------------------- values

  /** The node on top can take a value. */
  ghost predicate Ready(m: Machine) {
    m.Machine? && m.stack != [] && (Top(m).Arr? || (Top(m).Obj? && m.names != []))
  }

  lemma ReadyTakes(m: Machine, v: Json)
    requires Ready(m)
    ensures SetData(m, v).Machine?
  {
  }

  /** Opening, filling and closing a nested node is handing it to the node below. */
  lemma Nested(m: Machine, empty: Json, node: Json)
    requires Ready(m) && !empty.Null?
    ensures Begin(m, empty) == m.(stack := m.stack + [empty])
    ensures Top(Begin(m, empty)) == empty
    ensures End(WithTop(Begin(m, empty), node)) == SetData(m, node)
  {
    var b := Begin(m, empty);
    assert b.stack[..|b.stack| - 1] == m.stack;
    var w := WithTop(b, node);
    assert w.stack[..|w.stack| - 1] == m.stack;
  }

  /** A pair into an open object whose keys do not include this one. */
  lemma PairTakes(m: Machine, members: seq<Member>, key: string, v: Json)
    requires m.Machine? && m.stack != [] && Top(m) == Obj(members) && !HasKey(members, key)
    ensures Ready(ObjectKey(m, key))
    ensures SetData(ObjectKey(m, key), v) == WithTop(m, Obj(members + [Member(key, v)]))
  {
    hide SetMember;
    var k := ObjectKey(m, key);
    SetNewKeyAppends(members, key, v);
    assert k.names[..|k.names| - 1] == m.names;
  }

  lemma WithTopTwice(m: Machine, a: Json, b: Json)
    requires m.Machine? && m.stack != []
    ensures WithTop(m, a).Machine? && WithTop(m, a).stack != [] && Top(WithTop(m, a)) == a
    ensures WithTop(WithTop(m, a), b) == WithTop(m, b)
    ensures WithTop(m, Top(m)) == m
  {
    var w := WithTop(m, a);
    assert w.stack[..|w.stack| - 1] == m.stack[..|m.stack| - 1];
    assert m.stack[..|m.stack| - 1] + [Top(m)] == m.stack;
  }

  ghost predicate Readable(t: Json) {
    DistinctKeys(t) && QuoteFree(t)
  }

  /** The first character of a text decides the rule, and is not white space. */
  lemma FirstChar(t: Json)
    ensures
      var c := Text(t)[0];
      && !IsSpace(c)
      && (t.Obj? <==> c == '{') && (t.Arr? <==> c == '[') && (t.Str? <==> c == '"')
      && c != '}' && c != ']' && c != ','
      && (t.Null? ==> c == 'n') && (t.Bool? ==> c == 't' || c == 'f') && (t.Int? ==> c == '-' || IsDigit(c))
  {
    hide ItemsText, MembersText, Escaped;
    if t.Int? {
      DigitsAreDigits(if t.i < 0 then -(t.i as int) else t.i);
    }
  }

  lemma NumberIsNoWord(s: string, p: nat)
    requires p < |s| && (s[p] == '-' || IsDigit(s[p]))
    ensures !HasWord(s, p, "true") && !HasWord(s, p, "false") && !HasWord(s, p, "null")
  {
    if p + 4 <= |s| {
      assert s[p..p + 4][0] == s[p];
    }
    if p + 5 <= |s| {
      assert s[p..p + 5][0] == s[p];
    }
  }

  /** Reading the text of a tree anywhere hands its escaped form to the machine and stops at its end. */
  lemma {:induction false} ReadValue(s: string, p: nat, t: Json, m: Machine)
    requires Readable(t) && Ready(m) && At(s, p, Text(t)) && Follows(s, p + |Text(t)|)
    ensures p <= |s| && ParseValue(s, p, m) == Ok(p + |Text(t)|, SetData(m, Esc(t)))
    decreases t, 3
  {
    hide ItemsText, MembersText, Escaped, At, Decimal, SetData, Ready, ParseString, ParseInt, ParseObject, ParseArray,
         DistinctKeys, QuoteFree;
    AtFirst(s, p, Text(t));
    FirstChar(t);
    NoSkip(s, p);
    ReadyTakes(m, Esc(t));
    AtIsSlice(s, p, Text(t));
    match t
    case Null =>
    case Bool(b) =>
    case Int(i) =>
      IntAt(s, p, i);
      NumberIsNoWord(s, p);
    case Str(w) =>
      StrReadable(w);
      EscapedQuoteFree(w);
      QuotedAt(s, p, Escaped(w));
    case Arr(items) => ReadArray(s, p, items, m);
    case Obj(members) => ReadObject(s, p, members, m);
  }

  lemma StrReadable(w: string)
    requires Readable(Str(w))
    ensures '"' !in w
  {
  }

  lemma {:induction false} EscapedQuoteFree(w: string)
    requires '"' !in w
    ensures '"' !in Escaped(w)
  {
    if w != "" {
      assert w[0] in w && forall c :: c in w[1..] ==> c in w;
      EscapedQuoteFree(w[1..]);
    }
  }

  ghost predicate UniqueKeys(ms: seq<Member>) {
    forall a, b :: 0 <= a < b < |ms| ==> ms[a].key != ms[b].key
  }

  ghost predicate AllReadable(ms: seq<Member>) {
    forall i :: 0 <= i < |ms| ==> '"' !in ms[i].key && Readable(ms[i].value)
  }

  lemma ObjReadable(ms: seq<Member>)
    requires Readable(Obj(ms))
    ensures UniqueKeys(ms) && AllReadable(ms)
  {
    forall i | 0 <= i < |ms|
      ensures '"' !in ms[i].key && Readable(ms[i].value)
    {
      assert ms[i] in ms;
    }
  }

  lemma ArrReadable(items: seq<Json>)
    requires Readable(Arr(items))
    ensures forall i :: 0 <= i < |items| ==> Readable(items[i])
  {
    forall i | 0 <= i < |items|
      ensures Readable(items[i])
    {
      assert items[i] in items;
    }
  }

  lemma {:induction false} EscMembersSnoc(ms: seq<Member>, x: Member)
    ensures EscMembers(ms + [x]) == EscMembers(ms) + [Member(x.key, Esc(x.value))]
  {
    hide Esc;
    if ms != [] {
      EscMembersSnoc(ms[1..], x);
      assert (ms + [x])[1..] == ms[1..] + [x];
    } else {
      assert ms + [x] == [x];
      assert EscMembers([x][1..]) == [];
    }
  }

  lemma {:induction false} EscItemsSnoc(items: seq<Json>, x: Json)
    ensures EscItems(items + [x]) == EscItems(items) + [Esc(x)]
  {
    hide Esc;
    if items != [] {
      EscItemsSnoc(items[1..], x);
      assert (items + [x])[1..] == items[1..] + [x];
    } else {
      assert items + [x] == [x];
      assert EscItems([x][1..]) == [];
    }
  }

  // ---------------------------------------------------------------- objects

  lemma {:induction false} ReadPair(s: string, p: nat, x: Member, m: Machine, ms: seq<Member>)
    requires At(s, p, PairText(x)) && Follows(s, p + |PairText(x)|)
    requires '"' !in x.key && Readable(x.value)
    requires m.Machine? && m.stack != [] && Top(m) == Obj(ms) && !HasKey(ms, x.key)
    ensures p <= |s|
    ensures ParsePair(s, p, m) == Ok(p + |PairText(x)|, WithTop(m, Obj(ms + [Member(x.key, Esc(x.value))])))
    decreases x, 1
  {
    hide At, Quoted, ParseString, ParseValue, SetData, Ready, WithTop, HasKey, Readable, Text, Esc, Follows, ObjectKey,
         Skip, Sees;
    var k := Quoted(x.key);
    AtSplit(s, p, k, ":" + Text(x.value));
    AtSplit(s, p + |k|, ":", Text(x.value));
    QuotedAt(s, p, x.key);
    AtFirst(s, p + |k|, ":");
    ColonIsNoSpace();
    SeesHere(s, p + |k|, ':');
    PairTakes(m, ms, x.key, Esc(x.value));
    ReadValue(s, p + |k| + 1, x.value, ObjectKey(m, x.key));
  }

  lemma ColonIsNoSpace()
    ensures !IsSpace(':') && !IsSpace(',') && !IsSpace('}') && !IsSpace(']') && IsSpace(' ')
  {
  }

  /** What comes after a member: a comma and the rest, or the closing brace. */
  lemma AfterMember(s: string, p: nat, rest: seq<Member>)
    requires At(s, p, MembersText(rest, false) + "}")
    ensures p < |s| && Follows(s, p) && Skip(s, p) == p
    ensures rest == [] ==> !Sees(s, p, ',') && Sees(s, p, '}') && |MembersText(rest, false)| == 0
    ensures rest != [] ==> Sees(s, p, ',') && At(s, p + 1, MembersText(rest, true) + "}")
    ensures rest != [] ==> |MembersText(rest, false)| == 1 + |MembersText(rest, true)|
  {
    hide At, PairText;
    var w := MembersText(rest, false) + "}";
    AtFirst(s, p, w);
    if rest == [] {
      assert w[0] == '}';
    } else {
      assert MembersText(rest, true) == PairText(rest[0]) + MembersText(rest[1..], false);
      assert w == "," + (MembersText(rest, true) + "}");
      AtSplit(s, p, ",", MembersText(rest, true) + "}");
    }
    NoSkip(s, p);
  }

  lemma {:induction false} ReadMembers(s: string, p: nat, done: seq<Member>, rest: seq<Member>, m: Machine)
    requires rest != [] && At(s, p, MembersText(rest, true) + "}")
    requires UniqueKeys(done + rest) && AllReadable(rest)
    requires m.Machine? && m.stack != [] && Top(m) == Obj(EscMembers(done))
    ensures p <= |s|
    ensures ParseMembers(s, p, m)
            == Done(p + |MembersText(rest, true)| + 1, End(WithTop(m, Obj(EscMembers(done + rest)))))
    decreases rest, 2
  {
    hide At, PairText, ParsePair, Readable, Esc, EscMembers, Follows, Skip, Sees, End, MembersText, WithTop, HasKey;
    var x, more := rest[0], rest[1..];
    MembersSplit(rest);
    AtSplit(s, p, PairText(x), MembersText(more, false) + "}");
    var q := p + |PairText(x)|;
    AfterMember(s, q, more);
    KeyIsNew(done, rest);
    ReadPair(s, p, x, m, EscMembers(done));
    EscMembersSnoc(done, x);
    var v := Obj(EscMembers(done + [x]));
    WithTopTwice(m, v, Obj(EscMembers(done + rest)));
    assert done + rest == (done + [x]) + more;
    if more != [] {
      ReadMembers(s, q + 1, done + [x], more, WithTop(m, v));
    } else {
      assert done + rest == done + [x];
    }
  }

  lemma MembersSplit(rest: seq<Member>)
    requires rest != []
    ensures MembersText(rest, true) == PairText(rest[0]) + MembersText(rest[1..], false)
    ensures MembersText(rest, true) + "}" == PairText(rest[0]) + (MembersText(rest[1..], false) + "}")
  {
    hide PairText;
  }

  lemma KeyIsNew(done: seq<Member>, rest: seq<Member>)
    requires rest != [] && UniqueKeys(done + rest)
    ensures !HasKey(EscMembers(done), rest[0].key)
  {
    hide Esc;
    var all := done + rest;
    assert all[|done|] == rest[0];
    forall k | 0 <= k < |done|
      ensures EscMembers(done)[k].key != rest[0].key
    {
      assert all[k] == done[k];
    }
  }

  /** From the opening to the closing brace, whatever the machine makes of the node. */
  lemma {:induction false} ReadBody(s: string, p: nat, members: seq<Member>, m: Machine)
    requires UniqueKeys(members) && AllReadable(members) && At(s, p, Text(Obj(members)))
    requires
      var b := Begin(m, Obj([]));
      b.Machine? && b.stack != [] && Top(b) == Obj([])
    ensures p < |s|
    ensures ParseObject(s, p, m)
            == Done(p + |Text(Obj(members))|, End(WithTop(Begin(m, Obj([])), Obj(EscMembers(members)))))
    decreases members, 3
  {
    hide At, MembersText, ParseMembers, Esc, Follows, Skip, Sees, End, WithTop, Begin, Readable, PairText;
    var b := Begin(m, Obj([]));
    AtSplit(s, p, "{", MembersText(members, true) + "}");
    AtFirst(s, p, "{");
    WithTopTwice(b, Obj([]), Obj([]));
    BodyStart(s, p + 1, members);
    if members != [] {
      assert [] + members == members;
      ReadMembers(s, p + 1, [], members, b);
    }
  }

  lemma BodyStart(s: string, p: nat, members: seq<Member>)
    requires At(s, p, MembersText(members, true) + "}")
    ensures p < |s| && Skip(s, p) == p
    ensures members == [] <==> Sees(s, p, '}')
    ensures members == [] ==> |MembersText(members, true)| == 0
  {
    hide At, Text;
    AtFirst(s, p, MembersText(members, true) + "}");
    NoSkip(s, p);
  }

  lemma {:induction false} ReadObject(s: string, p: nat, members: seq<Member>, m: Machine)
    requires Readable(Obj(members)) && Ready(m) && At(s, p, Text(Obj(members)))
    ensures p < |s| && ParseObject(s, p, m) == Ok(p + |Text(Obj(members))|, SetData(m, Esc(Obj(members))))
    decreases members, 4
  {
    hide At, Text, ParseObject, SetData, Ready, Begin, End, WithTop, Readable, EscMembers;
    ObjReadable(members);
    NestedStack(m, Obj([]));
    Nested(m, Obj([]), Obj(EscMembers(members)));
    ReadBody(s, p, members, m);
    ReadyTakes(m, Obj(EscMembers(members)));
  }

  lemma NestedStack(m: Machine, empty: Json)
    requires Ready(m) && !empty.Null?
    ensures Begin(m, empty).Machine? && Begin(m, empty).stack != [] && Top(Begin(m, empty)) == empty
  {
  }

  // ---------------------------------------------------------------- arrays

  lemma AfterItem(s: string, p: nat, rest: seq<Json>)
    requires At(s, p, ItemsText(rest, false) + "]")
    ensures p < |s| && Follows(s, p) && Skip(s, p) == p
    ensures rest == [] ==> !Sees(s, p, ',') && Sees(s, p, ']') && |ItemsText(rest, false)| == 0
    ensures rest != [] ==> Sees(s, p, ',') && p + 1 < |s| && s[p + 1] == ' '
    ensures rest != [] ==> At(s, p + 2, ItemsText(rest, true) + "]")
    ensures rest != [] ==> |ItemsText(rest, false)| == 2 + |ItemsText(rest, true)|
  {
    hide At, Text;
    var w := ItemsText(rest, false) + "]";
    AtFirst(s, p, w);
    if rest == [] {
      assert w[0] == ']';
    } else {
      assert ItemsText(rest, true) == Text(rest[0]) + ItemsText(rest[1..], false);
      var tail := ItemsText(rest, true) + "]";
      assert w == "," + (" " + tail);
      AtSplit(s, p, ",", " " + tail);
      AtSplit(s, p + 1, " ", tail);
      AtFirst(s, p + 1, " ");
    }
    NoSkip(s, p);
  }

  lemma ItemsSplit(rest: seq<Json>)
    requires rest != []
    ensures ItemsText(rest, true) == Text(rest[0]) + ItemsText(rest[1..], false)
    ensures ItemsText(rest, true) + "]" == Text(rest[0]) + (ItemsText(rest[1..], false) + "]")
  {
    hide Text;
  }

  /** A leading space changes nothing. */
  lemma SpaceBeforeElements(s: string, p: nat, m: Machine)
    requires p < |s| && IsSpace(s[p])
    ensures ParseElements(s, p, m) == ParseElements(s, p + 1, m)
  {
    hide ParseValue, End, Done;
    SpaceBeforeValue(s, p, m);
  }

  lemma SpaceBeforeValue(s: string, p: nat, m: Machine)
    requires p < |s| && IsSpace(s[p])
    ensures ParseValue(s, p, m) == ParseValue(s, p + 1, m)
  {
    hide ParseObject, ParseArray, ParseString, ParseInt, SetData, HasWord, IsSpace, Done;
    SpaceSkipped(s, p);
  }

  lemma SpaceSkipped(s: string, p: nat)
    requires p < |s| && IsSpace(s[p])
    ensures Skip(s, p) == Skip(s, p + 1)
  {
  }

  lemma {:induction false} ReadElements(s: string, p: nat, done: seq<Json>, rest: seq<Json>, m: Machine)
    requires rest != [] && At(s, p, ItemsText(rest, true) + "]")
    requires forall i :: 0 <= i < |rest| ==> Readable(rest[i])
    requires m.Machine? && m.stack != [] && Top(m) == Arr(EscItems(done))
    ensures p <= |s|
    ensures ParseElements(s, p, m)
            == Done(p + |ItemsText(rest, true)| + 1, End(WithTop(m, Arr(EscItems(done + rest)))))
    decreases rest, 2
  {
    hide At, ParseValue, Readable, Esc, EscItems, Follows, Skip, Sees, End, ItemsText, WithTop, Text, SetData, Ready;
    var x, more := rest[0], rest[1..];
    ItemsSplit(rest);
    AtSplit(s, p, Text(x), ItemsText(more, false) + "]");
    var q := p + |Text(x)|;
    AfterItem(s, q, more);
    ItemTakes(m, EscItems(done), Esc(x));
    ReadValue(s, p, x, m);
    EscItemsSnoc(done, x);
    var v := Arr(EscItems(done + [x]));
    WithTopTwice(m, v, Arr(EscItems(done + rest)));
    assert done + rest == (done + [x]) + more;
    if more != [] {
      ColonIsNoSpace();
      SpaceBeforeElements(s, q + 1, WithTop(m, v));
      ReadElements(s, q + 2, done + [x], more, WithTop(m, v));
    } else {
      assert done + rest == done + [x];
    }
  }

  lemma ItemTakes(m: Machine, items: seq<Json>, v: Json)
    requires m.Machine? && m.stack != [] && Top(m) == Arr(items)
    ensures Ready(m) && SetData(m, v) == WithTop(m, Arr(items + [v]))
  {
  }

  lemma ArrayStart(s: string, p: nat, items: seq<Json>)
    requires At(s, p, ItemsText(items, true) + "]")
    ensures p < |s| && Skip(s, p) == p
    ensures items == [] <==> Sees(s, p, ']')
    ensures items == [] ==> |ItemsText(items, true)| == 0
  {
    hide At, Text;
    AtFirst(s, p, ItemsText(items, true) + "]");
    if items != [] {
      FirstChar(items[0]);
    }
    NoSkip(s, p);
  }

  lemma {:induction false} ReadArray(s: string, p: nat, items: seq<Json>, m: Machine)
    requires Readable(Arr(items)) && Ready(m) && At(s, p, Text(Arr(items)))
    ensures p < |s| && ParseArray(s, p, m) == Ok(p + |Text(Arr(items))|, SetData(m, Esc(Arr(items))))
    decreases items, 4
  {
    hide At, ItemsText, ParseElements, EscItems, Skip, Sees, End, WithTop, Begin, Readable, SetData, Ready;
    ArrReadable(items);
    NestedStack(m, Arr([]));
    Nested(m, Arr([]), Arr(EscItems(items)));
    var b := Begin(m, Arr([]));
    AtSplit(s, p, "[", ItemsText(items, true) + "]");
    AtFirst(s, p, "[");
    WithTopTwice(b, Arr([]), Arr([]));
    ArrayStart(s, p + 1, items);
    NoItems();
    ReadyTakes(m, Arr(EscItems(items)));
    if items != [] {
      assert [] + items == items;
      ReadElements(s, p + 1, [], items, b);
    }
  }

  lemma NoItems()
    ensures EscItems([]) == [] && EscMembers([]) == []
  {
  }

  // ---------------------------------------------------------------- what the reader can build

  ghost predicate QuoteFreeMachine(m: Machine) {
    m.Machine? ==>
      && QuoteFree(m.root)
      && (forall i :: 0 <= i < |m.stack| ==> QuoteFree(m.stack[i]))
      && (forall i :: 0 <= i < |m.names| ==> '"' !in m.names[i])
  }

  lemma {:induction false} SetQuoteFree(members: seq<Member>, key: string, v: Json)
    requires QuoteFree(Obj(members)) && '"' !in key && QuoteFree(v)
    ensures QuoteFree(Obj(SetMember(members, key, v)))
  {
    if members != [] {
      assert forall x :: x in members[1..] ==> x in members;
      assert QuoteFree(Obj(members[1..]));
      if members[0].key != key {
        SetQuoteFree(members[1..], key, v);
        var tail := SetMember(members[1..], key, v);
        assert forall x :: x in [members[0]] + tail ==> x == members[0] || x in tail;
      } else {
        assert forall x :: x in [Member(key, v)] + members[1..] ==> x == Member(key, v) || x in members[1..];
      }
    }
  }

  lemma DataQuoteFree(m: Machine, v: Json)
    requires QuoteFreeMachine(m) && QuoteFree(v)
    ensures QuoteFreeMachine(SetData(m, v))
  {
    hide SetMember;
    if m.Machine? && m.stack != [] {
      var top := Top(m);
      assert QuoteFree(top);
      if top.Obj? && m.names != [] {
        SetQuoteFree(top.members, m.names[|m.names| - 1], v);
      }
    }
  }

  lemma BeginQuoteFree(m: Machine)
    requires QuoteFreeMachine(m)
    ensures QuoteFreeMachine(Begin(m, Obj([]))) && QuoteFreeMachine(Begin(m, Arr([])))
  {
  }

  lemma EndQuoteFree(m: Machine)
    requires QuoteFreeMachine(m)
    ensures QuoteFreeMachine(End(m))
  {
    hide SetData;
    if m.Machine? && m.stack != [] {
      var rest := m.(stack := m.stack[..|m.stack| - 1]);
      assert QuoteFreeMachine(rest) && QuoteFree(Top(m));
      DataQuoteFree(rest, Top(m));
    }
  }

  ghost predicate QuoteFreeParsed(r: Parsed) {
    r.Ok? ==> QuoteFreeMachine(r.m)
  }

  lemma LeafQuoteFree(w: string, b: bool, i: I64)
    requires '"' !in w
    ensures QuoteFree(Str(w)) && QuoteFree(Bool(b)) && QuoteFree(Int(i)) && QuoteFree(Null)
  {
  }

  lemma {:induction false} ValueQuoteFree(s: string, p: nat, m: Machine)
    requires p <= |s| && QuoteFreeMachine(m)
    ensures QuoteFreeParsed(ParseValue(s, p, m))
    decreases |s| - p, 3
  {
    hide QuoteFreeMachine, SetData, QuoteFree, ParseString, ParseInt, ParseObject, ParseArray, HasWord;
    var q := Skip(s, p);
    LeafQuoteFree("", true, 0);
    LeafQuoteFree("", false, 0);
    DataQuoteFree(m, Bool(true));
    DataQuoteFree(m, Bool(false));
    DataQuoteFree(m, Null);
    if q < |s| {
      if s[q] == '{' {
        ObjectQuoteFree(s, q, m);
      } else if s[q] == '[' {
        ArrayQuoteFree(s, q, m);
      } else {
        var r, n := ParseString(s, q), ParseInt(s, q);
        if r.Some? {
          LeafQuoteFree(r.value.0, true, 0);
          DataQuoteFree(m, Str(r.value.0));
        }
        if n.Some? {
          LeafQuoteFree("", true, n.value.0);
          DataQuoteFree(m, Int(n.value.0));
        }
      }
    }
  }

  lemma {:induction false} ObjectQuoteFree(s: string, p: nat, m: Machine)
    requires p < |s| && QuoteFreeMachine(m)
    ensures QuoteFreeParsed(ParseObject(s, p, m))
    decreases |s| - p, 2
  {
    hide QuoteFreeMachine, Begin, End, ParseMembers;
    var m1 := Begin(m, Obj([]));
    BeginQuoteFree(m);
    EndQuoteFree(m1);
    MembersQuoteFree(s, p + 1, m1);
  }

  lemma {:induction false} MembersQuoteFree(s: string, p: nat, m: Machine)
    requires p <= |s| && QuoteFreeMachine(m)
    ensures QuoteFreeParsed(ParseMembers(s, p, m))
    decreases |s| - p, 5
  {
    hide QuoteFreeMachine, End, ParsePair;
    PairQuoteFree(s, p, m);
    var r := ParsePair(s, p, m);
    if r.Ok? {
      EndQuoteFree(r.m);
      if Sees(s, r.pos, ',') {
        MembersQuoteFree(s, Skip(s, r.pos) + 1, r.m);
      }
    }
  }

  lemma {:induction false} PairQuoteFree(s: string, p: nat, m: Machine)
    requires p <= |s| && QuoteFreeMachine(m)
    ensures QuoteFreeParsed(ParsePair(s, p, m))
    decreases |s| - p, 4
  {
    hide QuoteFree, ParseString, ParseValue;
    var key := ParseString(s, p);
    if key.Some? && Sees(s, key.value.1, ':') {
      ValueQuoteFree(s, Skip(s, key.value.1) + 1, ObjectKey(m, key.value.0));
    }
  }

  lemma {:induction false} ArrayQuoteFree(s: string, p: nat, m: Machine)
    requires p < |s| && QuoteFreeMachine(m)
    ensures QuoteFreeParsed(ParseArray(s, p, m))
    decreases |s| - p, 2
  {
    hide QuoteFreeMachine, Begin, End, ParseElements;
    var m1 := Begin(m, Arr([]));
    BeginQuoteFree(m);
    EndQuoteFree(m1);
    ElementsQuoteFree(s, p + 1, m1);
  }

  lemma {:induction false} ElementsQuoteFree(s: string, p: nat, m: Machine)
    requires p <= |s| && QuoteFreeMachine(m)
    ensures QuoteFreeParsed(ParseElements(s, p, m))
    decreases |s| - p, 5
  {
    hide QuoteFreeMachine, End, ParseValue;
    ValueQuoteFree(s, p, m);
    var r := ParseValue(s, p, m);
    if r.Ok? {
      EndQuoteFree(r.m);
      if Sees(s, r.pos, ',') {
        ElementsQuoteFree(s, Skip(s, r.pos) + 1, r.m);
      }
    }
  }

  /** No tree the reader returns has a double quote in a string or a key. */
  lemma ReaderNeverYieldsQuotes(s: string)
    ensures FromString(s).Some? ==> QuoteFree(FromString(s).value)
  {
    hide ParseObject, ParseArray;
    var m, q := Machine([Null], [], Null), Skip(s, 0);
    assert QuoteFreeMachine(m);
    if q < |s| && s[q] == '{' {
      ObjectQuoteFree(s, q, m);
    } else if q < |s| && s[q] == '[' {
      ArrayQuoteFree(s, q, m);
    }
  }

  // ---------------------------------------------------------------- escaping changes a tree exactly at apostrophes

  lemma {:induction false} EscapedGrows(w: string)
    ensures |Escaped(w)| >= |w|
    ensures Escaped(w) == w <==> '"' !in w && '\'' !in w
  {
    if w != "" {
      EscapedGrows(w[1..]);
      assert w == [w[0]] + w[1..];
      if w[0] == '"' || w[0] == '\'' {
        assert |Escaped(w)| > |w| && w[0] in w;
      } else {
        assert Escaped(w)[1..] == Escaped(w[1..]);
        assert forall c :: c in w <==> c == w[0] || c in w[1..];
      }
    }
  }

  lemma {:induction false} EscFixed(t: Json)
    requires QuoteFree(t)
    ensures Esc(t) == t <==> ApostropheFree(t)
    decreases t, 1
  {
    match t
    case Str(w) => EscapedGrows(w);
    case Arr(items) => EscItemsFixed(items);
    case Obj(members) => EscMembersFixed(members);
    case _ =>
  }

  lemma {:induction false} EscItemsFixed(items: seq<Json>)
    requires forall x :: x in items ==> QuoteFree(x)
    ensures EscItems(items) == items <==> (forall x :: x in items ==> ApostropheFree(x))
    decreases items, 0
  {
    hide Esc, QuoteFree, ApostropheFree;
    if items != [] {
      EscFixed(items[0]);
      EscItemsFixed(items[1..]);
      var e := EscItems(items);
      assert items == [items[0]] + items[1..] && e[0] == Esc(items[0]) && e[1..] == EscItems(items[1..]);
      assert forall x :: x in items <==> x == items[0] || x in items[1..];
    }
  }

  lemma {:induction false} EscMembersFixed(members: seq<Member>)
    requires forall x :: x in members ==> QuoteFree(x.value)
    ensures EscMembers(members) == members <==> (forall x :: x in members ==> ApostropheFree(x.value))
    decreases members, 0
  {
    hide Esc, QuoteFree, ApostropheFree;
    if members != [] {
      EscFixed(members[0].value);
      EscMembersFixed(members[1..]);
      var e := EscMembers(members);
      assert members == [members[0]] + members[1..] && e[1..] == EscMembers(members[1..]);
      assert e[0] == Member(members[0].key, Esc(members[0].value));
      assert forall x :: x in members <==> x == members[0] || x in members[1..];
    }
  }

  // ---------------------------------------------------------------- the round trip

  lemma {:induction false} PadSkipped(pad: string, s: string)
    requires s != "" && !IsSpace(s[0]) && forall c :: c in pad ==> IsSpace(c)
    ensures forall p :: 0 <= p <= |pad| ==> Skip(pad + s, p) == |pad|
  {
    var all := pad + s;
    var p := |pad|;
    while p > 0
      invariant 0 <= p <= |pad|
      invariant forall q :: p <= q <= |pad| ==> Skip(all, q) == |pad|
    {
      p := p - 1;
      assert all[p] == pad[p];
    }
  }

  /** An object without double quotes is read back as its escaped form, keys in order, whatever white space comes
      before it and whatever comes after. */
  lemma DocumentAnywhere(t: Json, pad: string, rest: string)
    requires t.Obj? && DistinctKeys(t) && QuoteFree(t) && forall c :: c in pad ==> IsSpace(c)
    ensures FromString(pad + (Text(t) + rest)) == Some(Esc(t))
  {
    hide ParseObject, ParseArray, DistinctKeys, QuoteFree, At, EscMembers, MembersText, Skip, IsSpace;
    var s, m, p := pad + (Text(t) + rest), Machine([Null], [], Null), |pad|;
    FirstChar(t);
    BraceIsNoSpace();
    PadSkipped(pad, Text(t) + rest);
    AtIsSlice(s, p, Text(t));
    assert s[p..p + |Text(t)|] == Text(t);
    ObjReadable(t.members);
    var b := Begin(m, Obj([]));
    assert b == Machine([Obj([])], [], Null);
    ReadBody(s, p, t.members, m);
    var w := WithTop(b, Obj(EscMembers(t.members)));
    assert w.stack == [Obj(EscMembers(t.members))];
    assert End(w).root == Obj(EscMembers(t.members));
  }

  lemma BraceIsNoSpace()
    ensures !IsSpace('{')
  {
  }

  /** An object without double quotes is read back as its escaped form, keys in order. */
  lemma ObjectRoundTrip(t: Json)
    requires t.Obj? && DistinctKeys(t) && QuoteFree(t)
    ensures FromString(ToString(t)) == Some(Esc(t))
  {
    hide FromString, DistinctKeys, QuoteFree, MembersText, Esc;
    DocumentAnywhere(t, "", "");
    assert "" + (Text(t) + "") == Text(t);
  }

  // ---------------------------------------------------------------- what else is read

  /** The white space of ISO 8859-1. */
  predicate IsoSpace(c: char) {
    c as int in {9, 10, 11, 12, 13, 32, 133, 160}
  }

  /** White space before any token is ignored: before a value, a pair, a list of elements or members, and before
      every punctuation mark. */
  lemma SpacesIgnored(s: string, p: nat, m: Machine, c: char)
    requires p < |s| && IsoSpace(s[p])
    ensures ParseValue(s, p, m) == ParseValue(s, p + 1, m) && ParseElements(s, p, m) == ParseElements(s, p + 1, m)
    ensures ParsePair(s, p, m) == ParsePair(s, p + 1, m) && ParseMembers(s, p, m) == ParseMembers(s, p + 1, m)
    ensures ParseString(s, p) == ParseString(s, p + 1) && (Sees(s, p, c) <==> Sees(s, p + 1, c))
    ensures Skip(s, p) == Skip(s, p + 1)
  {
    hide *;
    IsoSpaceIsSpace(s[p]);
    SpaceSkipped(s, p);
    SpaceBeforeString(s, p, c);
    SpaceBeforeValue(s, p, m);
    SpaceBeforeElements(s, p, m);
    SpaceBeforePair(s, p, m);
    SpaceBeforeMembers(s, p, m);
  }

  lemma SpaceBeforeString(s: string, p: nat, c: char)
    requires p < |s| && IsSpace(s[p])
    ensures ParseString(s, p) == ParseString(s, p + 1) && (Sees(s, p, c) <==> Sees(s, p + 1, c))
  {
    hide FindQuote, Skip, IsSpace;
    SpaceSkipped(s, p);
  }

  lemma SpaceBeforePair(s: string, p: nat, m: Machine)
    requires p < |s| && IsSpace(s[p])
    ensures ParsePair(s, p, m) == ParsePair(s, p + 1, m)
  {
    hide ParseString, ParseValue, Skip, Sees, IsSpace;
    SpaceBeforeString(s, p, ':');
  }

  lemma SpaceBeforeMembers(s: string, p: nat, m: Machine)
    requires p < |s| && IsSpace(s[p])
    ensures ParseMembers(s, p, m) == ParseMembers(s, p + 1, m)
  {
    hide ParsePair, Skip, Sees, IsSpace, End, Done;
    SpaceBeforePair(s, p, m);
  }

  lemma IsoSpaceIsSpace(c: char)
    ensures IsoSpace(c) <==> IsSpace(c)
  {
  }

  /** A plus sign before a number is ignored, a minus sign negates it, and leading zeros do not count. */
  lemma SignsRead(s: string, p: nat)
    requires p + 1 < |s| && IsDigit(s[p + 1])
    ensures s[p] == '+' ==> ParseInt(s, p) == ParseInt(s, p + 1)
    ensures s[p] == '0' && ParseInt(s, p + 1).Some? ==> ParseInt(s, p) == ParseInt(s, p + 1)
    ensures s[p] == '-' && ParseInt(s, p + 1).Some? ==>
              && ParseInt(s, p).Some? && ParseInt(s, p).value.1 == ParseInt(s, p + 1).value.1
              && ParseInt(s, p).value.0 == -ParseInt(s, p + 1).value.0
  {
    hide DigitsValue;
    var q := DigitRun(s, p + 1);
    RunIsDigits(s, p + 1);
    DigitsNonNegative(s[p + 1..q]);
    if s[p] == '0' {
      assert s[p..q] == "0" + s[p + 1..q];
      ZeroInFront(s[p + 1..q]);
    }
  }

  lemma {:induction false} RunIsDigits(s: string, p: nat)
    requires p <= |s|
    ensures forall i :: p <= i < DigitRun(s, p) ==> IsDigit(s[i])
    decreases |s| - p
  {
    if p < |s| && IsDigit(s[p]) {
      RunIsDigits(s, p + 1);
    }
  }

  lemma {:induction false} ZeroInFront(ds: string)
    ensures DigitsValue("0" + ds) == DigitsValue(ds)
  {
    if ds == "" {
      assert "0"[..0] == "" && "0" + ds == "0";
    } else {
      ZeroInFront(ds[..|ds| - 1]);
      assert ("0" + ds)[..|ds|] == "0" + ds[..|ds| - 1];
    }
  }

  lemma {:induction false} DigitsNonNegative(ds: string)
    requires forall c :: c in ds ==> IsDigit(c)
    ensures DigitsValue(ds) >= 0
  {
    if ds != "" {
      DigitsNonNegative(ds[..|ds| - 1]);
      assert ds[|ds| - 1] in ds;
    }
  }

  /** Anything but an object is refused: a wrapped array is no object, and no other value is a document. */
  lemma OnlyObjectsRead(t: Json)
    requires !t.Obj?
    ensures FromString(ToString(t)).None?
  {
    hide ParseValue, ParseArray, ItemsText, Escaped, Decimal;
    var s := ToString(t);
    FirstChar(t);
    NoSkip(s, 0);
    if t.Arr? {
      assert s[0] == '{' && s[1] == '[';
      SeesHere(s, 1, '}');
      SeesHere(s, 1, '"');
      var m := Machine([Null], [], Null);
      var b := Begin(m, Obj([]));
      assert ParseString(s, 1).None?;
      assert ParseMembers(s, 1, b).Fail?;
      assert ParseObject(s, 0, m).Fail?;
    }
  }

  /** For every tree: writing and reading back gives the same tree exactly when the root is an object, no string
      or key has a double quote and no string has an apostrophe. */
  lemma RoundTrip(t: Json)
    requires DistinctKeys(t)
    ensures FromString(ToString(t)) == Some(t) <==> t.Obj? && QuoteFree(t) && ApostropheFree(t)
  {
    hide FromString, ToString, DistinctKeys, QuoteFree, ApostropheFree, Esc;
    if !t.Obj? {
      OnlyObjectsRead(t);
    } else if !QuoteFree(t) {
      ReaderNeverYieldsQuotes(ToString(t));
    } else {
      ObjectRoundTrip(t);
      EscFixed(t);
    }
  }

  /** An apostrophe comes back with the backslash the writer put before it. */
  lemma ApostropheComesBackEscaped(key: string)
    requires '"' !in key
    ensures FromString(ToString(Obj([Member(key, Str("'"))]))) == Some(Obj([Member(key, Str("\\'"))]))
  {
    hide FromString, ToString;
    var t := Obj([Member(key, Str("'"))]);
    assert DistinctKeys(t) && QuoteFree(t);
    ObjectRoundTrip(t);
    EscapedCons('\'', "");
    assert ['\''] + "" == "'";
    EscapedNone();
    assert Esc(t.members[0].value) == Str("\\'");
    assert t.members[1..] == [];
    assert EscMembers(t.members) == [Member(key, Str("\\'"))];
  }
}
