/**
 cJSON_PrintBuffered: the printer that writes into one growing buffer.

 Every write is checked to land inside the buffer, and the finished text is the text of module
 JsonText, for every tree, format and starting size above zero.
 */
module JsonBuffer {
  import opened Buffers
  import opened JsonText
  import opened JsonWrite
  import opened PowerOfTwo

  /**
   Where print_value's result points when it started at offset `start`.  For a filled object in
   formatted output the start has been overwritten by then, and the result is `depth` characters
   into the buffer.
   */
  function ResultOffset(v: Json, depth: nat, fmt: bool, start: nat): (offset: nat) {
    if fmt && v.JObject? && v.members != [] then depth else start
  }

  class PrintBuffer {
    var buffer: array<char>
    var length: nat
    var offset: nat

    ghost predicate Valid()
      reads this
    {
      length == buffer.Length && offset <= length
    }

    /** The characters in front of the write position. */
    ghost function Text(): (s: string)
      requires Valid()
      reads this, buffer
    {
      buffer[..offset]
    }

    /** `text` and its terminator stand behind `base`, and the write position is somewhere in `text`. */
    ghost predicate Printed(base: string, text: string)
      requires Valid()
      reads this, buffer
    {
      && |base| + |text| < buffer.Length
      && buffer[..|base| + |text| + 1] == base + text + [NUL]
      && |base| <= offset <= |base| + |text|
    }

    constructor (prebuffer: nat)
      requires prebuffer > 0
      ensures Valid() && fresh(buffer) && offset == 0 && length == prebuffer
    {
      buffer := new char[prebuffer];
      length := prebuffer;
      offset := 0;
    }

    method Ensure(needed: nat)
      requires Valid()
      modifies this`buffer, this`length
      ensures Valid() && offset + needed <= length
      ensures length == if offset + needed <= old(length) then old(length) else LeastPow2(offset + needed)
      ensures buffer == old(buffer) || fresh(buffer)
      ensures Text() == old(Text())
    {
      var total := needed + offset;
      if total <= length { return; }
      var newSize := LeastPow2(total);
      var newBuffer := new char[newSize];
      forall i | 0 <= i < length {
        newBuffer[i] := buffer[i];
      }
      length := newSize;
      buffer := newBuffer;
    }

    /** ensure(), then `s` is written at the write position, which moves on by `advance`. */
    method Emit(room: nat, s: string, advance: nat)
      requires Valid() && advance <= |s| <= room
      modifies this, buffer
      ensures Valid()
      ensures buffer == old(buffer) || fresh(buffer)
      ensures offset == old(offset) + advance
      ensures old(offset) + |s| <= buffer.Length
      ensures buffer[..old(offset) + |s|] == old(Text()) + s
      ensures Text() == old(Text()) + s[..advance]
    {
      Ensure(room);
      Poke(buffer, offset, s);
      offset := offset + advance;
      assert Text() == buffer[..old(offset) + |s|][..offset];
    }

    /** The end of the NUL-terminated text at the write position. */
    method Update(ghost base: string, ghost text: string) returns (end: nat)
      requires Valid() && Printed(base, text) && NulFree(text)
      ensures end == |base| + |text|
    {
      end := offset;
      while buffer[end] != NUL
        invariant offset <= end <= |base| + |text|
        decreases |base| + |text| - end
      {
        assert buffer[end] == buffer[..|base| + |text| + 1][end];
        end := end + 1;
      }
      assert buffer[end] == (base + text + [NUL])[end];
    }

    /** Writes `s` and its terminator and stays in front of them. */
    method Finish(room: nat, s: string)
      requires Valid() && |s| < room
      modifies this, buffer
      ensures Valid() && (buffer == old(buffer) || fresh(buffer))
      ensures Printed(old(Text()), s)
    {
      Emit(room, s + [NUL], 0);
      ConcatAssociative(old(Text()), s, [NUL]);
    }

    /** Writes `s` and its terminator and moves behind `s`. */
    method Append(room: nat, s: string)
      requires Valid() && |s| < room
      modifies this, buffer
      ensures Valid() && (buffer == old(buffer) || fresh(buffer))
      ensures Text() == old(Text()) + s
    {
      Emit(room, s + [NUL], |s|);
      assert (s + [NUL])[..|s|] == s;
    }

    /** A text that stands behind `base + done` completes one behind `base`. */
    lemma Rebase(base: string, done: string, s: string)
      requires Valid() && Printed(base + done, s)
      ensures Printed(base, done + s)
    {
      ConcatAssociative(base, done, s);
    }

    method PrintNumber(n: Int32)
      requires Valid()
      modifies this, buffer
      ensures Valid() && (buffer == old(buffer) || fresh(buffer))
      ensures Printed(old(Text()), JsonText.PrintNumber(n))
    {
      if n == 0 {
        Finish(2, "0");
      } else {
        NumberFits(n);
        Finish(21, JsonText.PrintNumber(n));
      }
    }

    method PrintString(s: CString)
      requires Valid()
      modifies this, buffer
      ensures Valid() && (buffer == old(buffer) || fresh(buffer))
      ensures Printed(old(Text()), JsonText.PrintString(s))
    {
      var flag := false;
      for i := 0 to |s|
        invariant !flag ==> forall j :: 0 <= j < i ==> !NeedsEscape(s[j])
      {
        flag := flag || NeedsEscape(s[i]);
      }
      if !flag {
        NothingToEscape(s, "\"");
        Finish(|s| + 3, "\"" + s + "\"");
        assert Cons('\"', "") == "\"";
        ConcatAssociative("\"", s, "\"");
      } else {
        PrintEscaped(s);
      }
    }

    method PrintEscaped(s: CString)
      requires Valid()
      modifies this, buffer
      ensures Valid() && (buffer == old(buffer) || fresh(buffer))
      ensures Printed(old(Text()), JsonText.PrintString(s))
    {
      hide EscapeThen, LeastPow2, JsonText.PrintString;
      var len := EscapedLength(s);
      Ensure(len + 3);
      WriteQuoted(buffer, offset, s, len);
    }

    /** Returns where in the buffer the C function's result points. */
    method PrintValue(v: Json, depth: nat, fmt: bool) returns (out: nat)
      requires Valid()
      modifies this, buffer
      ensures out == ResultOffset(v, depth, fmt, old(offset))
      ensures Valid() && (buffer == old(buffer) || fresh(buffer))
      ensures Printed(old(Text()), Print(v, depth, fmt))
      decreases v, 1
    {
      LeafText(depth, fmt);
      hide ValueThen;
      out := offset;
      match v
      case JNull => Finish(5, "null");
      case JFalse => Finish(6, "false");
      case JTrue => Finish(5, "true");
      case JNumber(n) => PrintNumber(n); NumberText(n, depth, fmt);
      case JString(s) => PrintString(s); StringText(s, depth, fmt);
      case JArray(items) => out := PrintArray(items, depth, fmt);
      case JObject(members) => out := PrintObject(members, depth, fmt);
    }

    method PrintArray(items: seq<Json>, depth: nat, fmt: bool) returns (out: nat)
      requires Valid()
      modifies this, buffer
      ensures out == old(offset)
      ensures Valid() && (buffer == old(buffer) || fresh(buffer))
      ensures Printed(old(Text()), Print(JArray(items), depth, fmt))
      decreases items, 1
    {
      hide ValueThen, ItemsLeft;
      out := offset;
      if items == [] {
        Finish(3, "[]");
        EmptyArrayText(depth, fmt);
        return;
      }
      ArrayText(items, depth, fmt);
      ghost var base, whole := Text(), Print(JArray(items), depth, fmt);
      ghost var done := "[";
      Emit(1, "[", 1);
      for k := 0 to |items|
        invariant Valid() && (buffer == old(buffer) || fresh(buffer))
        invariant Text() == base + done
        invariant done + ItemsLeft(items[k..], depth + 1, fmt) == whole
      {
        done := PrintItem(items, k, depth + 1, fmt, base, done);
      }
      NoItemsLeft(items, depth + 1, fmt);
      Finish(2, "]");
      Rebase(base, done, "]");
    }

    /** One round of the loop over an array's elements. */
    method PrintItem(items: seq<Json>, k: nat, depth: nat, fmt: bool, ghost base: string, ghost done: string)
      returns (ghost more: string)
      requires Valid() && k < |items|
      requires Text() == base + done
      modifies this, buffer
      ensures Valid() && (buffer == old(buffer) || fresh(buffer))
      ensures Text() == base + more
      ensures more + ItemsLeft(items[k + 1..], depth, fmt) == done + ItemsLeft(items[k..], depth, fmt)
      decreases items, 0
    {
      ItemsLeftStep(items, k, depth, fmt);
      hide ValueThen, ItemsLeft;
      PrintChild(items[k], depth, fmt);
      var separator := if k + 1 == |items| then "" else if fmt then ", " else ",";
      if k + 1 < |items| {
        Append(|separator| + 1, separator);
      }
      var text := Print(items[k], depth, fmt);
      MemberText(base, done, text, separator, ItemsLeft(items[k + 1..], depth, fmt));
      more := done + (text + separator);
    }

    /** A value and the move of the write position to its end. */
    method PrintChild(v: Json, depth: nat, fmt: bool)
      requires Valid()
      modifies this, buffer
      ensures Valid() && (buffer == old(buffer) || fresh(buffer))
      ensures Text() == old(Text()) + Print(v, depth, fmt)
      decreases v, 2
    {
      var _ := PrintValue(v, depth, fmt);
      ValueNulFree(v, depth, fmt, "");
      offset := Update(old(Text()), Print(v, depth, fmt));
      assert Text() == buffer[..offset + 1][..offset];
    }

    method PrintName(s: CString)
      requires Valid()
      modifies this, buffer
      ensures Valid() && (buffer == old(buffer) || fresh(buffer))
      ensures Text() == old(Text()) + JsonText.PrintString(s)
    {
      PrintString(s);
      StringNulFree(s, "");
      offset := Update(old(Text()), JsonText.PrintString(s));
      assert Text() == buffer[..offset + 1][..offset];
    }

    /** The indentation, name, colon and value of one member. */
    method PrintMember(m: Member, depth: nat, fmt: bool)
      requires Valid()
      modifies this, buffer
      ensures Valid() && (buffer == old(buffer) || fresh(buffer))
      ensures Text() == old(Text()) + MemberThen(m, depth, fmt, "")
      decreases m, 3
    {
      hide StringThen, ValueThen, MemberThen;
      ghost var base := Text();
      ghost var tabs, colon := TabsThen(if fmt then depth else 0, ""), if fmt then ":\t" else ":";
      if fmt {
        TabsLength(depth, "");
        Emit(depth, TabsThen(depth, ""), depth);
      }
      assert Text() == base + tabs;
      PrintName(m.name);
      Emit(if fmt then 2 else 1, if fmt then ":\t" else ":", if fmt then 2 else 1);
      assert Text() == base + tabs + JsonText.PrintString(m.name) + colon;
      PrintChild(m.value, depth, fmt);
      MemberParts(m, depth, fmt);
      MemberText(base, tabs, JsonText.PrintString(m.name), colon, Print(m.value, depth, fmt));
    }

    method PrintObject(members: seq<Member>, depth: nat, fmt: bool) returns (out: nat)
      requires Valid()
      modifies this, buffer
      ensures out == ResultOffset(JObject(members), depth, fmt, old(offset))
      ensures Valid() && (buffer == old(buffer) || fresh(buffer))
      ensures Printed(old(Text()), Print(JObject(members), depth, fmt))
      decreases members, 1
    {
      hide ValueThen, MembersLeft;
      var i := offset;
      if members == [] {
        TabsLength(depth - 1, "}");
        Finish(if fmt then depth + 4 else 3, if fmt then "{\n" + TabsThen(depth - 1, "}") else "{}");
        EmptyObjectText(depth, fmt);
        return i;
      }
      ObjectText(members, depth, fmt);
      ghost var base, whole := Text(), Print(JObject(members), depth, fmt);
      var open := if fmt then "{\n" else "{";
      Append(|open| + 1, open);
      ghost var done := open;
      for k := 0 to |members|
        invariant Valid() && (buffer == old(buffer) || fresh(buffer))
        invariant Text() == base + done
        invariant done + MembersLeft(members[k..], depth + 1, fmt) == whole
      {
        MembersLeftStep(members, k, depth + 1, fmt);
        PrintMember(members[k], depth + 1, fmt);
        var suffix := MemberSuffix(k + 1 == |members|, fmt);
        Append(|suffix| + 1, suffix);
        ghost var text := MemberThen(members[k], depth + 1, fmt, "") + suffix;
        MemberText(base, done, MemberThen(members[k], depth + 1, fmt, ""), suffix,
                   MembersLeft(members[k + 1..], depth + 1, fmt));
        done := done + text;
      }
      NoMembersLeft(members, depth + 1, fmt);
      var close := TabsThen(if fmt then depth else 0, "}");
      TabsLength(if fmt then depth else 0, "}");
      Finish(if fmt then depth + 2 else 2, close);
      Rebase(base, done, close);
      // the loop that writes the closing tabs counts in the variable that held the start
      out := if fmt then depth else i;
    }
  }

  /**
   cJSON_PrintBuffered: the same text as the printer that allocates and joins.

   An allocation of no bytes gives no buffer, and then nothing is printed.
   */
  method PrintBuffered(v: Json, prebuffer: int, fmt: bool) returns (out: array?<char>, start: nat)
    ensures out == null <==> prebuffer <= 0
    ensures out != null ==>
              && fresh(out) && start == 0
              && |Print(v, 0, fmt)| < out.Length
              && out[start..start + |Print(v, 0, fmt)|] == Print(v, 0, fmt) && out[start + |Print(v, 0, fmt)|] == NUL
  {
    if prebuffer <= 0 { return null, 0; }
    var p := new PrintBuffer(prebuffer);
    start := p.PrintValue(v, 0, fmt);
    out := p.buffer;
    ghost var text := Print(v, 0, fmt);
    assert [] + text + [NUL] == text + [NUL];
    assert out[..|text|] == out[..|text| + 1][..|text|];
    assert out[|text|] == out[..|text| + 1][|text|];
  }
}
