/**
 cJSON_Print and cJSON_PrintUnformatted: the printer that prints every child into a string of its
 own, adds up how much room the parts need, allocates that much and joins them.
 */
module JsonJoin {
  import opened Buffers
  import opened JsonText
  import opened JsonWrite

  /** Room for parts of the given sizes, each with `each` characters of separators around it. */
  ghost function Room(sizes: seq<nat>, each: nat): (n: nat) {
    if sizes == [] then 0 else sizes[0] + each + Room(sizes[1..], each)
  }

  lemma {:induction false} RoomSnoc(sizes: seq<nat>, size: nat, each: nat)
    ensures Room(sizes + [size], each) == Room(sizes, each) + size + each
  {
    if sizes == [] {
      assert [size][1..] == [];
    } else {
      RoomSnoc(sizes[1..], size, each);
      assert (sizes + [size])[1..] == sizes[1..] + [size];
    }
  }

  lemma RoomNone()
    ensures forall each :: Room([], each) == 0
  {
  }

  lemma RoomFirst(sizes: seq<nat>, i: nat, each: nat)
    requires i < |sizes|
    ensures Room(sizes[i..], each) == sizes[i] + each + Room(sizes[i + 1..], each)
  {
    assert sizes[i..][1..] == sizes[i + 1..];
  }

  method PrintString(s: CString) returns (out: string)
    ensures out == JsonText.PrintString(s)
  {
    var flag := false;
    for i := 0 to |s|
      invariant !flag ==> forall j :: 0 <= j < i ==> !NeedsEscape(s[j])
    {
      flag := flag || NeedsEscape(s[i]);
    }
    if !flag {
      NothingToEscape(s, "\"");
      assert Cons('\"', "") == "\"";
      ConcatAssociative("\"", s, "\"");
      return "\"" + s + "\"";
    }
    out := PrintEscaped(s);
  }

  method PrintEscaped(s: CString) returns (out: string)
    ensures out == JsonText.PrintString(s)
  {
    hide EscapeThen, JsonText.PrintString;
    var len := EscapedLength(s);
    var buffer := new char[len + 3];
    WriteQuoted(buffer, 0, s, len);
    out := buffer[..len + 2];
    assert out == buffer[..len + 3][..len + 2];
  }

  method PrintValue(v: Json, depth: nat, fmt: bool) returns (out: string)
    ensures out == Print(v, depth, fmt)
    decreases v, 1
  {
    LeafText(depth, fmt);
    hide ValueThen;
    match v
    case JNull => out := "null";
    case JFalse => out := "false";
    case JTrue => out := "true";
    case JNumber(n) => out := if n == 0 then "0" else PrintNumber(n); NumberText(n, depth, fmt);
    case JString(s) => out := PrintString(s); StringText(s, depth, fmt);
    case JArray(items) => out := PrintArray(items, depth, fmt);
    case JObject(members) => out := PrintObject(members, depth, fmt);
  }

  method PrintArray(items: seq<Json>, depth: nat, fmt: bool) returns (out: string)
    ensures out == Print(JArray(items), depth, fmt)
    decreases items, 1
  {
    hide ValueThen, ItemsLeft, Room;
    RoomNone();
    if items == [] {
      EmptyArrayText(depth, fmt);
      return "[]";
    }
    var len := 5;
    var entries: seq<string> := [];
    ghost var sizes: seq<nat> := [];
    for k := 0 to |items|
      invariant |entries| == k
      invariant forall j :: 0 <= j < k ==> entries[j] == Print(items[j], depth + 1, fmt)
      invariant |sizes| == k && forall j :: 0 <= j < k ==> sizes[j] == |entries[j]|
      invariant len == 5 + Room(sizes, if fmt then 3 else 2)
    {
      var ret := PrintValue(items[k], depth + 1, fmt);
      RoomSnoc(sizes, |ret|, if fmt then 3 else 2);
      sizes := sizes + [|ret|];
      entries := entries + [ret];
      len := len + |ret| + 2 + if fmt then 1 else 0;
    }
    var buffer := new char[len];
    PokeEnded(buffer, 0, "[");
    var at := 1;
    assert sizes[0..] == sizes;
    ArrayText(items, depth, fmt);
    for i := 0 to |items|
      invariant 1 <= at && at + Room(sizes[i..], if fmt then 3 else 2) + 4 <= len
      invariant buffer[..at] + ItemsLeft(items[i..], depth + 1, fmt) == Print(JArray(items), depth, fmt)
    {
      RoomFirst(sizes, i, if fmt then 3 else 2);
      at := JoinItem(buffer, at, items, i, entries[i], depth + 1, fmt);
    }
    NoItemsLeft(items, depth + 1, fmt);
    PokeEnded(buffer, at, "]");
    out := buffer[..at + 1];
  }

  /** Copies one entry and, unless it is the last, its separator and a terminator. */
  method JoinItem(buffer: array<char>, start: nat, items: seq<Json>, i: nat, entry: string, depth: nat, fmt: bool)
    returns (at: nat)
    requires i < |items| && entry == Print(items[i], depth, fmt)
    requires start + |entry| + (if fmt then 2 else 1) + 1 <= buffer.Length
    modifies buffer
    ensures start <= at <= start + |entry| + (if fmt then 2 else 1) && at <= buffer.Length
    ensures buffer[..at] + ItemsLeft(items[i + 1..], depth, fmt)
         == old(buffer[..start]) + ItemsLeft(items[i..], depth, fmt)
  {
    hide ValueThen, ItemsLeft;
    ItemsLeftStep(items, i, depth, fmt);
    Poke(buffer, start, entry);
    at := start + |entry|;
    ghost var done, left := old(buffer[..start]), ItemsLeft(items[i + 1..], depth, fmt);
    if i != |items| - 1 {
      var separator := if fmt then ", " else ",";
      PokeEnded(buffer, at, separator);
      at := at + |separator|;
      MemberText(done, entry, separator, left, "");
      assert left + "" == left;
    } else {
      ConcatAssociative(done, entry, left);
      assert "" + left == left;
    }
  }

  method PrintEmptyObject(depth: nat, fmt: bool) returns (out: string)
    ensures out == Print(JObject([]), depth, fmt)
  {
    EmptyObjectText(depth, fmt);
    hide ValueThen;
    TabsLength(depth - 1, "}");
    var buffer := new char[if fmt then depth + 4 else 3];
    var text := if fmt then "{\n" + TabsThen(depth - 1, "}") else "{}";
    PokeEnded(buffer, 0, text);
    out := buffer[..|text|];
  }

  method PrintObject(members: seq<Member>, depth: nat, fmt: bool) returns (out: string)
    ensures out == Print(JObject(members), depth, fmt)
    decreases members, 1
  {
    hide ValueThen, IsMember;
    if members == [] {
      out := PrintEmptyObject(depth, fmt);
      return;
    }
    var len := 7 + if fmt then depth + 1 else 0;
    var names: seq<string>, entries: seq<string> := [], [];
    ghost var sizes: seq<nat> := [];
    for k := 0 to |members|
      invariant |names| == |entries| == |sizes| == k
      invariant forall j :: 0 <= j < k ==> IsMember(names[j], entries[j], members[j], depth + 1, fmt)
      invariant forall j :: 0 <= j < k ==> sizes[j] == |names[j]| + |entries[j]|
      invariant len == 7 + (if fmt then depth + 1 else 0) + Room(sizes, MemberRoom(depth + 1, fmt))
    {
      var str, ret := PrintParts(members[k], depth + 1, fmt);
      RoomSnoc(sizes, |str| + |ret|, MemberRoom(depth + 1, fmt));
      sizes := sizes + [|str| + |ret|];
      names, entries := names + [str], entries + [ret];
      len := len + |ret| + |str| + 2 + if fmt then 2 + depth + 1 else 0;
    }
    out := JoinObject(members, names, entries, len, sizes, depth, fmt);
  }

  method PrintParts(m: Member, depth: nat, fmt: bool) returns (str: string, ret: string)
    ensures IsMember(str, ret, m, depth, fmt)
    decreases m, 1
  {
    str := PrintString(m.name);
    ret := PrintValue(m.value, depth, fmt);
  }

  /** The characters around a member's name and value: the terms of print_object's running total. */
  function MemberRoom(depth: nat, fmt: bool): (n: nat) {
    2 + if fmt then 2 + depth else 0
  }

  ghost predicate IsMember(name: string, entry: string, m: Member, depth: nat, fmt: bool) {
    name == JsonText.PrintString(m.name) && entry == Print(m.value, depth, fmt)
  }

  method JoinObject(members: seq<Member>, names: seq<string>, entries: seq<string>, len: nat, ghost sizes: seq<nat>,
                    depth: nat, fmt: bool)
    returns (out: string)
    requires members != [] && |names| == |entries| == |sizes| == |members|
    requires forall j :: 0 <= j < |members| ==> IsMember(names[j], entries[j], members[j], depth + 1, fmt)
    requires forall j :: 0 <= j < |members| ==> sizes[j] == |names[j]| + |entries[j]|
    requires len == 7 + (if fmt then depth + 1 else 0) + Room(sizes, MemberRoom(depth + 1, fmt))
    ensures out == Print(JObject(members), depth, fmt)
  {
    hide ValueThen, MembersLeft, IsMember, Room, TabsThen;
    var buffer := new char[len];
    var open := if fmt then "{\n" else "{";
    PokeEnded(buffer, 0, open);
    var at := |open|;
    ObjectText(members, depth, fmt);
    assert sizes[0..] == sizes;
    for i := 0 to |members|
      invariant 0 <= at && at + Room(sizes[i..], MemberRoom(depth + 1, fmt)) + (if fmt then depth + 2 else 2) <= len
      invariant buffer[..at] + MembersLeft(members[i..], depth + 1, fmt) == Print(JObject(members), depth, fmt)
    {
      RoomFirst(sizes, i, MemberRoom(depth + 1, fmt));
      at := JoinMember(buffer, at, members, i, names[i], entries[i], depth + 1, fmt);
    }
    NoMembersLeft(members, depth + 1, fmt);
    var close := TabsThen(if fmt then depth else 0, "}");
    TabsLength(if fmt then depth else 0, "}");
    PokeEnded(buffer, at, close);
    out := buffer[..at + |close|];
  }

  /** Five strings copied one behind the other, with a terminator. */
  method PokeAll(buffer: array<char>, start: nat, a: string, b: string, c: string, d: string, e: string)
    returns (at: nat)
    requires start + |a| + |b| + |c| + |d| + |e| < buffer.Length
    modifies buffer
    ensures at == start + |a| + |b| + |c| + |d| + |e|
    ensures buffer[..at] == old(buffer[..start]) + (a + b + c + d + e)
  {
    Poke(buffer, start, a);
    at := start + |a|;
    Poke(buffer, at, b);
    at := at + |b|;
    Poke(buffer, at, c);
    at := at + |c|;
    Poke(buffer, at, d);
    at := at + |d|;
    PokeEnded(buffer, at, e);
    at := at + |e|;
  }

  /** Copies the indentation, name, colon, value and ending of one member. */
  method JoinMember(buffer: array<char>, start: nat, members: seq<Member>, i: nat, name: string, entry: string,
                    depth: nat, fmt: bool)
    returns (at: nat)
    requires i < |members| && IsMember(name, entry, members[i], depth, fmt)
    requires start + |name| + |entry| + MemberRoom(depth, fmt) < buffer.Length
    modifies buffer
    ensures at <= start + |name| + |entry| + MemberRoom(depth, fmt) && at <= buffer.Length
    ensures buffer[..at] + MembersLeft(members[i + 1..], depth, fmt)
         == old(buffer[..start]) + MembersLeft(members[i..], depth, fmt)
  {
    hide ValueThen, MembersLeft, StringThen, TabsThen, MemberSuffix;
    MembersLeftPieces(members, i, depth, fmt);
    var tabs := TabsThen(if fmt then depth else 0, "");
    TabsLength(if fmt then depth else 0, "");
    var colon := if fmt then ":\t" else ":";
    var suffix := MemberSuffix(i == |members| - 1, fmt);
    at := PokeAll(buffer, start, tabs, name, colon, entry, suffix);
    ConcatAssociative(old(buffer[..start]), tabs + name + colon + entry + suffix,
                      MembersLeft(members[i + 1..], depth, fmt));
  }
}
