// The recursive printer (src/core/json.cpp): text appended piece by piece is the text that the grammar
// describes.
module JsonWriter {
  import opened Base
  import opened Decimals
  import opened JsonText
  import opened JsonGrammar

  lemma EscapeNext(text: Bytes, i: nat)
    requires i < |text|
    ensures Escape(text[..i + 1]) == Escape(text[..i]) + EscapeByte(text[i])
  {
    assert text[..i + 1] == text[..i] + [text[i]];
    SpelledConcat(EscapeByte, text[..i], [text[i]]);
    assert Spelled(EscapeByte, [text[i]]) == EscapeByte(text[i]) + Spelled(EscapeByte, [text[i]][1..]);
    assert [text[i]][1..] == [];
  }

  method JsonEscape(text: Bytes) returns (out: Bytes)
    ensures out == Escape(text)
  {
    out := [];
    for i := 0 to |text|
      invariant out == Escape(text[..i])
    {
      var c := text[i];
      EscapeNext(text, i);
      if c == QUOTE {
        out := out + [BACKSLASH, QUOTE];
      } else if c == BACKSLASH {
        out := out + [BACKSLASH, BACKSLASH];
      } else if c == NEWLINE {
        out := out + [BACKSLASH, LETTER_N];
      } else if c == RETURN {
        out := out + [BACKSLASH, LETTER_R];
      } else if c == TAB {
        out := out + [BACKSLASH, LETTER_T];
      } else if c == BACKSPACE {
        out := out + [BACKSLASH, LETTER_B];
      } else if c == FORMFEED {
        out := out + [BACKSLASH, LETTER_F];
      } else if c < 0x20 {
        out := out + ([BACKSLASH, LETTER_U] + Hex4(c as int));
      } else {
        out := out + [c];
      }
    }
    assert text[..|text|] == text;
  }

  method AppendIndent(out0: Bytes, style: Style, level: nat) returns (out: Bytes)
    ensures out == out0 + Indent(style, level)
  {
    out := out0;
    if style.indent <= 0 {
      return;
    }
    out := out + [NEWLINE] + Spaces(style.indent * level);
  }

  method AppendQuoted(out0: Bytes, text: Bytes) returns (out: Bytes)
    ensures out == out0 + Quoted(text)
  {
    var escaped := JsonEscape(text);
    out := out0 + [QUOTE];
    out := out + escaped;
    out := out + [QUOTE];
  }

  method WriteValue(v: JsonValue, out0: Bytes, style: Style, level: nat) returns (out: Bytes)
    ensures out == out0 + Write(v, style, level)
    decreases v, 1
  {
    match v {
      case Null => out := out0 + NULL_TEXT;
      case Bool(b) => out := out0 + if b then TRUE_TEXT else FALSE_TEXT;
      case Int(i) => out := out0 + ShowInt(i);
      case Double(d) => out := out0 + style.floats.show(d);
      case Str(text) => out := AppendQuoted(out0, text);
      case Array(items) =>
        if items == [] {
          out := out0 + [OPEN_BRACKET, CLOSE_BRACKET];
        } else {
          out := AppendItems(v, out0 + [OPEN_BRACKET], style, level);
        }
      case Object(members) =>
        if members == [] {
          out := out0 + [OPEN_BRACE, CLOSE_BRACE];
        } else {
          out := AppendMembers(v, out0 + [OPEN_BRACE], style, level);
        }
    }
  }

  method AppendItems(v: JsonValue, out0: Bytes, style: Style, level: nat) returns (out: Bytes)
    requires v.Array?
    ensures out == out0 + WriteItems(v.items, style, level, true)
    decreases v, 0
  {
    out := out0;
    var first := true;
    var i := 0;
    assert v.items[0..] == v.items;
    while i < |v.items|
      invariant i <= |v.items| && first == (i == 0)
      invariant out + WriteItems(v.items[i..], style, level, first) == out0 + WriteItems(v.items, style, level, true)
    {
      ghost var before := out;
      if !first {
        out := out + [COMMA];
      }
      out := AppendIndent(out, style, level + 1);
      out := WriteValue(v.items[i], out, style, level + 1);
      ItemWritten(before, v.items[i..], style, level, first);
      assert v.items[i..][1..] == v.items[i + 1..];
      first := false;
      i := i + 1;
    }
    out := AppendIndent(out, style, level);
    out := out + [CLOSE_BRACKET];
  }

  lemma ItemWritten(out: Bytes, items: seq<JsonValue>, style: Style, level: nat, first: bool)
    requires items != []
    ensures out + WriteItems(items, style, level, first)
      == (if first then out else out + [COMMA]) + Indent(style, level + 1) + Write(items[0], style, level + 1)
         + WriteItems(items[1..], style, level, false)
  {
  }

  method AppendMembers(v: JsonValue, out0: Bytes, style: Style, level: nat) returns (out: Bytes)
    requires v.Object?
    ensures out == out0 + WriteMembers(v.members, style, level, true)
    decreases v, 0
  {
    out := out0;
    var first := true;
    var i := 0;
    assert v.members[0..] == v.members;
    while i < |v.members|
      invariant i <= |v.members| && first == (i == 0)
      invariant out + WriteMembers(v.members[i..], style, level, first) == out0 + WriteMembers(v.members, style, level, true)
    {
      ghost var before := out;
      if !first {
        out := out + [COMMA];
      }
      out := AppendIndent(out, style, level + 1);
      out := AppendMember(v.members[i], out, style, level + 1);
      MemberWritten(before, v.members[i..], style, level, first);
      assert v.members[i..][1..] == v.members[i + 1..];
      first := false;
      i := i + 1;
    }
    out := AppendIndent(out, style, level);
    out := out + [CLOSE_BRACE];
  }

  method AppendMember(m: Member, out0: Bytes, style: Style, level: nat) returns (out: Bytes)
    ensures out == out0 + WriteMember(m, style, level)
    decreases m, 0
  {
    out := AppendQuoted(out0, m.key);
    out := out + [COLON];
    if style.indent > 0 {
      out := out + [SPACE];
    }
    out := WriteValue(m.value, out, style, level);
  }

  lemma MemberWritten(out: Bytes, members: seq<Member>, style: Style, level: nat, first: bool)
    requires members != []
    ensures out + WriteMembers(members, style, level, first)
      == (if first then out else out + [COMMA]) + Indent(style, level + 1) + WriteMember(members[0], style, level + 1)
         + WriteMembers(members[1..], style, level, false)
  {
  }

  method Dump(v: JsonValue, style: Style) returns (out: Bytes)
    ensures out == Write(v, style, 0)
  {
    out := WriteValue(v, [], style, 0);
  }
}
