/** The writer as it runs: an output buffer and a stack of open containers that decides
    where commas go. */
module JsonWriter {
  import opened Wrappers
  import opened Json
  import opened JsonRoundTrip

  /** What a value must be preceded by. */
  function Comma(hasChild: seq<bool>, pendingKey: bool): string {
    if hasChild != [] && !pendingKey && hasChild[|hasChild| - 1] then "," else ""
  }

  /** The innermost container has a child now. */
  function Marked(hasChild: seq<bool>): seq<bool> {
    if hasChild == [] then [] else hasChild[|hasChild| - 1 := true]
  }

  class Writer {
    var out: string
    var container: seq<char>
    var hasChild: seq<bool>
    var pendingKey: bool

    ghost predicate Valid()
      reads this
    {
      && |container| == |hasChild|
      && forall i :: 0 <= i < |container| ==> container[i] == '[' || container[i] == '{'
    }

    /** No key waits for a value outside every container. */
    ghost predicate Regular()
      reads this
    {
      Valid() && (hasChild == [] ==> !pendingKey)
    }

    constructor ()
      ensures Regular() && out == "" && container == [] && hasChild == []
    {
      out, container, hasChild, pendingKey := "", [], [], false;
    }

    method Separator()
      requires Valid()
      modifies this`out, this`hasChild, this`pendingKey
      ensures Valid() && pendingKey == (old(pendingKey) && hasChild == []) && hasChild == Marked(old(hasChild))
      ensures out == old(out) + Comma(old(hasChild), old(pendingKey))
    {
      if hasChild == [] {
        return;
      }
      var top := |hasChild| - 1;
      if pendingKey {
        pendingKey := false;
        hasChild := hasChild[top := true];
      } else if hasChild[top] {
        out := out + ",";
      } else {
        hasChild := hasChild[top := true];
      }
    }

    method Open(brace: char)
      requires Valid() && (brace == '[' || brace == '{')
      modifies this
      ensures Valid() && pendingKey == (old(pendingKey) && old(hasChild) == [])
      ensures container == old(container) + [brace] && hasChild == Marked(old(hasChild)) + [false]
      ensures out == old(out) + Comma(old(hasChild), old(pendingKey)) + [brace]
    {
      Separator();
      out := out + [brace];
      container := container + [brace];
      hasChild := hasChild + [false];
    }

    method Close()
      requires Valid() && container != []
      modifies this
      ensures Valid() && !pendingKey
      ensures var top := |old(container)| - 1;
              && container == old(container)[..top] && hasChild == old(hasChild)[..top]
              && out == old(out) + if old(container)[top] == '[' then "]" else "}"
    {
      var top := |container| - 1;
      out := out + if container[top] == '[' then "]" else "}";
      container := container[..top];
      hasChild := hasChild[..top];
      pendingKey := false;
    }

    method SeparatorForKey()
      requires Valid()
      modifies this`out, this`hasChild
      ensures Valid() && hasChild == Marked(old(hasChild)) && out == old(out) + Comma(old(hasChild), false)
    {
      if hasChild == [] {
        return;
      }
      var top := |hasChild| - 1;
      if hasChild[top] {
        out := out + ",";
      }
      hasChild := hasChild[top := true];
    }

    /** The comma before a key, the quoted key and its colon. */
    method Key(name: string)
      requires Valid()
      modifies this`out, this`hasChild, this`pendingKey
      ensures Valid() && pendingKey && hasChild == Marked(old(hasChild))
      ensures out == old(out) + Comma(old(hasChild), false) + Quoted(name) + ":"
    {
      hide Escape, Comma, Marked;
      SeparatorForKey();
      var text := EscapeText(name);
      out := out + ("\"" + text + "\"");
      out := out + ":";
      pendingKey := true;
    }

    /** A scalar value, already in JSON form. */
    method Raw(text: string)
      requires Valid()
      modifies this`out, this`hasChild, this`pendingKey
      ensures Valid() && pendingKey == (old(pendingKey) && hasChild == []) && hasChild == Marked(old(hasChild))
      ensures out == old(out) + Comma(old(hasChild), old(pendingKey)) + text
    {
      Separator();
      out := out + text;
    }

    /** Drives the writer over a tree: its text, after the separator its place calls for. */
    method Put(t: Tree)
      requires Regular()
      modifies this
      ensures Valid() && !pendingKey
      ensures container == old(container) && hasChild == Marked(old(hasChild))
      ensures out == old(out) + Comma(old(hasChild), old(pendingKey)) + Emit(t)
      decreases t, 1
    {
      hide EmitItems, EmitMembers, Escape, IntText, Comma, Marked;
      match t
      case TNull => Raw("null");
      case TBool(b) => Raw(if b then "true" else "false");
      case TInt(n) => Raw(IntText(n));
      case TStr(s) =>
        var text := EscapeText(s);
        Raw("\"" + text + "\"");
      case TArr(items) =>
        PutArray(items);
      case TObj(members) =>
        PutObject(members);
    }

    method PutArray(items: seq<Tree>)
      requires Regular()
      modifies this
      ensures Valid() && !pendingKey
      ensures container == old(container) && hasChild == Marked(old(hasChild))
      ensures out == old(out) + Comma(old(hasChild), old(pendingKey)) + ("[" + EmitItems(items) + "]")
      decreases items, 1
    {
      hide EmitItems, Comma;
      Open('[');
      PutItems(items);
      Close();
      assert container == old(container) && hasChild == Marked(old(hasChild));
    }

    method PutObject(members: seq<(string, Tree)>)
      requires Regular()
      modifies this
      ensures Valid() && !pendingKey
      ensures container == old(container) && hasChild == Marked(old(hasChild))
      ensures out == old(out) + Comma(old(hasChild), old(pendingKey)) + ("{" + EmitMembers(members) + "}")
      decreases members, 1
    {
      hide EmitMembers, Comma;
      Open('{');
      PutMembers(members);
      Close();
      assert container == old(container) && hasChild == Marked(old(hasChild));
    }

    method PutItems(items: seq<Tree>)
      requires Valid() && hasChild != [] && !hasChild[|hasChild| - 1] && !pendingKey
      modifies this
      ensures Valid() && container == old(container)
      ensures hasChild[..|hasChild| - 1] == old(hasChild)[..|hasChild| - 1] && |hasChild| == old(|hasChild|)
      ensures out == old(out) + EmitItems(items)
      decreases items, 0
    {
      hide Emit, EmitItems;
      var top := |hasChild| - 1;
      NoItems();
      for i := 0 to |items|
        invariant Valid() && container == old(container) && !pendingKey
        invariant hasChild == old(hasChild)[top := 0 < i]
        invariant out == old(out) + EmitItems(items[..i])
      {
        Put(items[i]);
        ItemsNext(items, i);
      }
      assert items[..|items|] == items;
    }

    method PutMembers(members: seq<(string, Tree)>)
      requires Valid() && hasChild != [] && !hasChild[|hasChild| - 1] && !pendingKey
      modifies this
      ensures Valid() && container == old(container)
      ensures hasChild[..|hasChild| - 1] == old(hasChild)[..|hasChild| - 1] && |hasChild| == old(|hasChild|)
      ensures out == old(out) + EmitMembers(members)
      decreases members, 0
    {
      hide EmitMember, EmitMembers;
      var top := |hasChild| - 1;
      NoMembers();
      for i := 0 to |members|
        invariant Valid() && container == old(container) && !pendingKey
        invariant hasChild == old(hasChild)[top := 0 < i]
        invariant out == old(out) + EmitMembers(members[..i])
      {
        PutMember(members[i]);
        MembersNext(members, i);
      }
      assert members[..|members|] == members;
    }

    method PutMember(m: (string, Tree))
      requires Valid() && hasChild != [] && !pendingKey
      modifies this
      ensures Valid() && container == old(container) && !pendingKey && hasChild == Marked(old(hasChild))
      ensures out == old(out) + Comma(old(hasChild), false) + EmitMember(m)
      decreases m, 2
    {
      hide Emit, Quoted;
      Key(m.0);
      Put(m.1);
    }
  }

  /** The escaping loop. */
  method EscapeText(text: string) returns (out: string)
    ensures out == Escape(text)
  {
    hide EscapeChar, Escape;
    out := "";
    EscapeFirst(text);
    for i := 0 to |text|
      invariant out + Escape(text[i..]) == Escape(text)
    {
      EscapeNext(text, i, out);
      out := out + EscapeChar(text[i]);
    }
    assert out + "" == out;
  }

  lemma EscapeFirst(text: string)
    ensures "" + Escape(text[0..]) == Escape(text) && Escape(text[|text|..]) == ""
  {
    assert text[0..] == text;
  }

  lemma EscapeNext(text: string, i: nat, out: string)
    requires i < |text|
    ensures out + Escape(text[i..]) == (out + EscapeChar(text[i])) + Escape(text[i + 1..])
  {
    hide EscapeChar;
    assert text[i..][0] == text[i] && text[i..][1..] == text[i + 1..];
    Regrouped(out, EscapeChar(text[i]), Escape(text[i + 1..]));
  }

  lemma Regrouped(a: string, b: string, c: string)
    ensures a + (b + c) == (a + b) + c
  {
  }

  /** A fresh writer's text for a tree is one the parser reads back as the tree. */
  method WriteDocument(t: Tree, ghost converts: Converts) returns (text: string)
    requires Distinct(t) && AcceptsIntegers(converts)
    ensures text == Emit(t) && ParseDocument(text, converts).Some? && Denotes(ParseDocument(text, converts).value, t)
  {
    hide Emit, ParseDocument, Distinct, AcceptsIntegers;
    var w := new Writer();
    w.Put(t);
    RoundTrip(t, converts);
    text := w.out;
  }

  lemma NoItems()
    ensures EmitItems([]) == ""
  {
  }

  lemma NoMembers()
    ensures EmitMembers([]) == ""
  {
  }

  lemma {:induction false} ItemsNext(items: seq<Tree>, i: nat)
    requires i < |items|
    ensures EmitItems(items[..i + 1])
         == EmitItems(items[..i]) + (if 0 < i then "," else "") + Emit(items[i])
    decreases i
  {
    hide Emit;
    if i == 0 {
      assert items[..1] == [items[0]];
    } else {
      var (rest, first, last) := (items[1..], Emit(items[0]), Emit(items[i]));
      ItemsNext(rest, i - 1);
      assert items[..i + 1][1..] == rest[..i] && items[..i][1..] == rest[..i - 1];
      assert EmitItems(items[..i + 1]) == first + ("," + EmitItems(rest[..i]));
      if i == 1 {
        assert rest[..0] == [] && items[..1] == [items[0]];
      } else {
        assert EmitItems(items[..i]) == first + ("," + EmitItems(rest[..i - 1]));
        assert first + ("," + (EmitItems(rest[..i - 1]) + "," + last)) == first + ("," + EmitItems(rest[..i - 1])) + "," + last;
      }
    }
  }

  lemma {:induction false} MembersNext(members: seq<(string, Tree)>, i: nat)
    requires i < |members|
    ensures EmitMembers(members[..i + 1])
         == EmitMembers(members[..i]) + (if 0 < i then "," else "") + EmitMember(members[i])
    decreases i
  {
    hide EmitMember;
    if i == 0 {
      assert members[..1] == [members[0]];
    } else {
      var (rest, first, last) := (members[1..], EmitMember(members[0]), EmitMember(members[i]));
      MembersNext(rest, i - 1);
      assert members[..i + 1][1..] == rest[..i] && members[..i][1..] == rest[..i - 1];
      assert EmitMembers(members[..i + 1]) == first + ("," + EmitMembers(rest[..i]));
      if i == 1 {
        assert rest[..0] == [] && members[..1] == [members[0]];
      } else {
        assert EmitMembers(members[..i]) == first + ("," + EmitMembers(rest[..i - 1]));
        assert first + ("," + (EmitMembers(rest[..i - 1]) + "," + last)) == first + ("," + EmitMembers(rest[..i - 1])) + "," + last;
      }
    }
  }
}
