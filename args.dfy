/** The positional arguments of a PeriodicTask row: a JSON array, which the
    beat scheduler decodes before it calls the task. A timer's array holds one
    string, the URL (services.py:25). JSON strings follow section 7 of
    RFC 8259: a quotation mark, a reverse solidus or a control character must
    be written as an escape sequence. */
module Args {
  import opened Wrappers

  /** The characters a JSON string cannot hold as they are. */
  predicate NeedsEscape(c: char) {
    c == '"' || c == '\\' || c < ' '
  }

  /** A string in which no character needs escaping. */
  predicate Plain(s: string) {
    forall i :: 0 <= i < |s| ==> !NeedsEscape(s[i])
  }

  function HexDigit(d: int): char
    requires 0 <= d < 16
  {
    if d < 10 then ('0' as int + d) as char else ('a' as int + d - 10) as char
  }

  /** The value of a hexadecimal digit, or -1 for any other character. */
  function HexValue(c: char): (v: int)
    ensures -1 <= v < 16
  {
    if '0' <= c <= '9' then c as int - '0' as int
    else if 'a' <= c <= 'f' then c as int - 'a' as int + 10
    else if 'A' <= c <= 'F' then c as int - 'A' as int + 10
    else -1
  }

  /** One character as it appears inside a JSON string. */
  function EscapeChar(c: char): string {
    if c == '"' then "\\\""
    else if c == '\\' then "\\\\"
    else if c < ' ' then "\\u00" + [HexDigit(c as int / 16), HexDigit(c as int % 16)]
    else [c]
  }

  /** The body of a JSON string holding s. */
  function Escape(s: string): string {
    if s == [] then [] else EscapeChar(s[0]) + Escape(s[1..])
  }

  function Prepend(c: char, rest: Option<string>): Option<string> {
    if rest.None? then None else Some([c] + rest.value)
  }

  /** Decodes the body of a JSON string, up to but excluding its closing
      quotation mark: None when the body is not a valid string body. A
      \u escape that names a surrogate is refused (see README). */
  function Unescape(s: string): Option<string>
    decreases |s|
  {
    if s == [] then Some([])
    else if s[0] == '"' || s[0] < ' ' then None
    else if s[0] != '\\' then Prepend(s[0], Unescape(s[1..]))
    else if |s| < 2 then None
    else if s[1] == '"' || s[1] == '\\' || s[1] == '/' then Prepend(s[1], Unescape(s[2..]))
    else if s[1] == 'b' then Prepend(8 as char, Unescape(s[2..]))
    else if s[1] == 'f' then Prepend(12 as char, Unescape(s[2..]))
    else if s[1] == 'n' then Prepend('\n', Unescape(s[2..]))
    else if s[1] == 'r' then Prepend('\r', Unescape(s[2..]))
    else if s[1] == 't' then Prepend('\t', Unescape(s[2..]))
    else if s[1] == 'u' && 6 <= |s| && HexValue(s[2]) >= 0 && HexValue(s[3]) >= 0 && HexValue(s[4]) >= 0 && HexValue(s[5]) >= 0 then
      var v := HexValue(s[2]) * 4096 + HexValue(s[3]) * 256 + HexValue(s[4]) * 16 + HexValue(s[5]);
      if 0xD800 <= v < 0xE000 then None else Prepend(v as char, Unescape(s[6..]))
    else None
  }

  /** How the beat scheduler reads a timer's arguments: a JSON array holding
      one string, whose value is returned; None for anything else. */
  function SoleArg(args: string): Option<string> {
    if 4 <= |args| && args[..2] == "[\"" && args[|args| - 2..] == "\"]" then Unescape(args[2..|args| - 2])
    else None
  }

  /** The arguments services.py:25 writes: the URL placed between `["` and
      `"]` as it is, without escaping. */
  function RawArgs(webUrl: string): string {
    "[\"" + webUrl + "\"]"
  }

  /** The arguments a timer should carry: a JSON array of one string, the URL. */
  function ArgsFor(webUrl: string): string {
    "[\"" + Escape(webUrl) + "\"]"
  }

  lemma HexRoundTrip(d: int)
    requires 0 <= d < 16
    ensures HexValue(HexDigit(d)) == d
  {
  }

  /** Decoding an escaped character yields that character, followed by the
      decoding of the rest. */
  lemma UnescapeChar(c: char, rest: string)
    ensures Unescape(EscapeChar(c) + rest) == Prepend(c, Unescape(rest))
  {
    var e := EscapeChar(c) + rest;
    if c == '"' || c == '\\' {
      assert e[2..] == rest;
    } else if c < ' ' {
      HexRoundTrip(c as int / 16);
      HexRoundTrip(c as int % 16);
      assert e[6..] == rest;
    } else {
      assert e[1..] == rest;
    }
  }

  /** Escaping then decoding gives back any string. */
  lemma {:induction false} EscapeRoundTrip(s: string)
    ensures Unescape(Escape(s)) == Some(s)
  {
    if s != [] {
      EscapeRoundTrip(s[1..]);
      UnescapeChar(s[0], Escape(s[1..]));
      assert [s[0]] + s[1..] == s;
    }
  }

  /** The arguments of a timer read back as its URL, whatever the URL. */
  lemma ArgsRoundTrip(webUrl: string)
    ensures SoleArg(ArgsFor(webUrl)) == Some(webUrl)
  {
    var a := ArgsFor(webUrl);
    assert a[..2] == "[\"" && a[|a| - 2..] == "\"]";
    assert a[2..|a| - 2] == Escape(webUrl);
    EscapeRoundTrip(webUrl);
  }

  /** Escaping leaves a plain string as it is. */
  lemma {:induction false} EscapePlain(s: string)
    requires Plain(s)
    ensures Escape(s) == s
  {
    if s != [] {
      assert Plain(s[1..]) by {
        forall i | 0 <= i < |s[1..]| ensures !NeedsEscape(s[1..][i]) {
          assert s[1..][i] == s[i + 1];
        }
      }
      EscapePlain(s[1..]);
      assert [s[0]] + s[1..] == s;
    }
  }

  /** For a URL with no quotation mark, reverse solidus or control character,
      what services.py:25 writes is the JSON array of that URL. */
  lemma RawArgsPlainUrl(webUrl: string)
    requires Plain(webUrl)
    ensures RawArgs(webUrl) == ArgsFor(webUrl)
    ensures SoleArg(RawArgs(webUrl)) == Some(webUrl)
  {
    EscapePlain(webUrl);
    ArgsRoundTrip(webUrl);
  }

  /** A plain prefix decodes to itself. */
  lemma {:induction false} UnescapePlainPrefix(p: string, rest: string)
    requires Plain(p)
    ensures Unescape(p + rest) == if Unescape(rest).None? then None else Some(p + Unescape(rest).value)
  {
    if p != [] {
      assert Plain(p[1..]) by {
        forall i | 0 <= i < |p[1..]| ensures !NeedsEscape(p[1..][i]) {
          assert p[1..][i] == p[i + 1];
        }
      }
      UnescapePlainPrefix(p[1..], rest);
      assert (p + rest)[0] == p[0] && !NeedsEscape(p[0]);
      assert (p + rest)[1..] == p[1..] + rest;
      if Unescape(rest).Some? {
        assert [p[0]] + (p[1..] + Unescape(rest).value) == p + Unescape(rest).value;
      }
    } else {
      assert p + rest == rest;
      if Unescape(rest).Some? {
        assert p + Unescape(rest).value == Unescape(rest).value;
      }
    }
  }

  /** What services.py:25 writes for a URL whose first character that needs
      escaping is a quotation mark: not a JSON array of one string at all.
      URL validation accepts such URLs, since its path part is any
      non-space text; https://e.com/?q="x" is one. */
  lemma RawArgsQuoteCounterexample(prefix: string, rest: string)
    requires Plain(prefix) && rest != [] && rest[0] == '"'
    ensures SoleArg(RawArgs(prefix + rest)) == None
    ensures Plain("https://e.com/?q=") && SoleArg(RawArgs("https://e.com/?q=" + "\"x\"")) == None
  {
    forall p: string, r: string | Plain(p) && r != [] && r[0] == '"'
      ensures SoleArg(RawArgs(p + r)) == None
    {
      var a := RawArgs(p + r);
      assert a[..2] == "[\"" && a[|a| - 2..] == "\"]";
      assert a[2..|a| - 2] == p + r;
      UnescapePlainPrefix(p, r);
    }
    assert Plain("https://e.com/?q=");
  }

  /** What services.py:25 writes for a URL holding a reverse solidus followed
      by n: an array whose string reads back as a different URL, with a line
      break in its place; https://e.com/a\nb is one. */
  lemma RawArgsBackslashCounterexample(prefix: string, rest: string)
    requires Plain(prefix) && Plain(rest)
    ensures SoleArg(RawArgs(prefix + "\\n" + rest)) == Some(prefix + "\n" + rest)
    ensures prefix + "\\n" + rest != prefix + "\n" + rest
  {
    var tail := "\\n" + rest;
    var a := RawArgs(prefix + tail);
    assert prefix + "\\n" + rest == prefix + tail;
    assert a[..2] == "[\"" && a[|a| - 2..] == "\"]";
    assert a[2..|a| - 2] == prefix + tail;
    assert tail[2..] == rest;
    UnescapePlainPrefix(rest, []);
    assert rest + [] == rest;
    assert Unescape(tail) == Some("\n" + rest);
    UnescapePlainPrefix(prefix, tail);
    assert prefix + ("\n" + rest) == prefix + "\n" + rest;
    assert (prefix + "\\n" + rest)[|prefix|] != (prefix + "\n" + rest)[|prefix|];
  }

  /** The argument list the create-task view test expects for its URL. */
  lemma ArgsExample(webUrl: string)
    requires webUrl == "https://example.com"
    ensures ArgsFor(webUrl) == "[\"https://example.com\"]"
  {
    ExampleUrlPlain(webUrl);
    RawArgsPlainUrl(webUrl);
  }

  lemma ExampleUrlPlain(webUrl: string)
    requires webUrl == "https://example.com"
    ensures Plain(webUrl) && RawArgs(webUrl) == "[\"https://example.com\"]"
  {
  }
}
