/** A compact, dot-separated text form for a sequence of strings, free of
    spaces. It stands for the base64url segments of a JSON Web Token and for
    the `JSON.stringify` text kept in browser storage: the model only needs a
    text form that can be read back and that survives `split(" ")`. */
module Codec {
  import opened Wrappers
  import opened Text

  const EscapeMark: char := '~'

  /** The escape sequence of one character: `.`, space and the escape mark are
      written as two characters, every other character as itself. */
  function EscapeChar(ch: char): string {
    if ch == EscapeMark then [EscapeMark, EscapeMark]
    else if ch == '.' then [EscapeMark, 'd']
    else if ch == ' ' then [EscapeMark, 's']
    else [ch]
  }

  function Escape(s: string): (r: string)
    ensures '.' !in r && ' ' !in r
  {
    if |s| == 0 then [] else EscapeChar(s[0]) + Escape(s[1..])
  }

  /** The inverse of `Escape`; `None` for text that no `Escape` produces. */
  function Unescape(s: string): Option<string> {
    if |s| == 0 then Some([])
    else if s[0] == '.' || s[0] == ' ' then None
    else if s[0] != EscapeMark then
      match Unescape(s[1..])
      case Some(rest) => Some([s[0]] + rest)
      case None => None
    else if |s| < 2 then None
    else
      var ch := if s[1] == EscapeMark then Some(EscapeMark)
                else if s[1] == 'd' then Some('.')
                else if s[1] == 's' then Some(' ')
                else None;
      match (ch, Unescape(s[2..]))
      case (Some(c), Some(rest)) => Some([c] + rest)
      case _ => None
  }

  /** Unescaping reads one escape sequence off the front and then goes on. */
  lemma UnescapeStep(ch: char, t: string)
    ensures Unescape(EscapeChar(ch) + t) ==
      match Unescape(t)
      case Some(rest) => Some([ch] + rest)
      case None => None
  {
    var e := EscapeChar(ch) + t;
    if ch == EscapeMark || ch == '.' || ch == ' ' {
      assert e[0] == EscapeMark && |e| >= 2;
      assert e[2..] == t;
    } else {
      assert e[0] == ch;
      assert e[1..] == t;
    }
  }

  lemma {:induction false} UnescapeEscape(s: string)
    ensures Unescape(Escape(s)) == Some(s)
    decreases |s|
  {
    if |s| > 0 {
      UnescapeEscape(s[1..]);
      UnescapeStep(s[0], Escape(s[1..]));
      assert s == [s[0]] + s[1..];
    }
  }

  function EscapeAll(fields: seq<string>): (r: seq<string>)
    ensures |r| == |fields|
    ensures forall i :: 0 <= i < |r| ==> r[i] == Escape(fields[i])
  {
    if |fields| == 0 then [] else [Escape(fields[0])] + EscapeAll(fields[1..])
  }

  function UnescapeAll(parts: seq<string>): Option<seq<string>> {
    if |parts| == 0 then Some([])
    else match (Unescape(parts[0]), UnescapeAll(parts[1..]))
      case (Some(f), Some(rest)) => Some([f] + rest)
      case _ => None
  }

  lemma {:induction false} UnescapeAllEscapeAll(fields: seq<string>)
    ensures UnescapeAll(EscapeAll(fields)) == Some(fields)
    decreases |fields|
  {
    if |fields| > 0 {
      var e := EscapeAll(fields);
      var tail := fields[1..];
      UnescapeEscape(fields[0]);
      UnescapeAllEscapeAll(tail);
      assert e[0] == Escape(fields[0]) && e[1..] == EscapeAll(tail);
      UnescapeAllFront(e, fields[0], tail);
      assert fields == [fields[0]] + tail;
    }
  }

  lemma UnescapeAllFront(parts: seq<string>, f: string, rest: seq<string>)
    requires |parts| > 0 && Unescape(parts[0]) == Some(f) && UnescapeAll(parts[1..]) == Some(rest)
    ensures UnescapeAll(parts) == Some([f] + rest)
  {
  }

  /** The text form: the escaped fields joined with `.`. */
  function Encode(fields: seq<string>): string
    requires |fields| >= 1
  {
    Join(EscapeAll(fields), '.')
  }

  function Decode(s: string): Option<seq<string>> {
    UnescapeAll(Split(s, '.'))
  }

  lemma {:induction false} JoinAvoids(parts: seq<string>, sep: char, ch: char)
    requires |parts| >= 1 && ch != sep
    requires forall i :: 0 <= i < |parts| ==> ch !in parts[i]
    ensures ch !in Join(parts, sep)
    decreases |parts|
  {
    if |parts| > 1 {
      JoinAvoids(parts[1..], sep, ch);
    }
  }

  /** Decoding the text form gives the fields back, the text form has no
      space in it, and it decodes to exactly as many fields as were encoded. */
  lemma DecodeEncode(fields: seq<string>)
    requires |fields| >= 1
    ensures Decode(Encode(fields)) == Some(fields)
    ensures ' ' !in Encode(fields)
  {
    var parts := EscapeAll(fields);
    SplitJoin(parts, '.');
    UnescapeAllEscapeAll(fields);
    JoinAvoids(parts, '.', ' ');
  }

  lemma {:induction false} EscapeUnescape(s: string)
    requires Unescape(s).Some?
    ensures Escape(Unescape(s).value) == s
    decreases |s|
  {
    if |s| > 0 {
      if s[0] != EscapeMark {
        EscapeUnescape(s[1..]);
        var rest := Unescape(s[1..]).value;
        assert Unescape(s).value == [s[0]] + rest;
        assert ([s[0]] + rest)[1..] == rest;
        assert s == [s[0]] + s[1..];
      } else {
        EscapeUnescape(s[2..]);
        var rest := Unescape(s[2..]).value;
        var c := Unescape(s).value[0];
        assert Unescape(s).value == [c] + rest;
        assert ([c] + rest)[1..] == rest;
        assert s == [s[0], s[1]] + s[2..];
      }
    }
  }

  lemma {:induction false} EscapeAllUnescapeAll(parts: seq<string>)
    requires UnescapeAll(parts).Some?
    ensures EscapeAll(UnescapeAll(parts).value) == parts
    decreases |parts|
  {
    if |parts| > 0 {
      EscapeUnescape(parts[0]);
      EscapeAllUnescapeAll(parts[1..]);
      var fields := UnescapeAll(parts).value;
      assert fields[1..] == UnescapeAll(parts[1..]).value;
      assert parts == [parts[0]] + parts[1..];
    }
  }

  /** Whatever decodes is the text form of what it decodes to. */
  lemma EncodeDecode(s: string)
    requires Decode(s).Some?
    ensures |Decode(s).value| >= 1
    ensures Encode(Decode(s).value) == s
  {
    var parts := Split(s, '.');
    EscapeAllUnescapeAll(parts);
  }

  /** Different field sequences have different text forms. */
  lemma EncodeInjective(a: seq<string>, b: seq<string>)
    requires |a| >= 1 && |b| >= 1
    requires Encode(a) == Encode(b)
    ensures a == b
  {
    DecodeEncode(a);
    DecodeEncode(b);
  }
}
