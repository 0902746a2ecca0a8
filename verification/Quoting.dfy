/** The quoting of the ProxyCommand, proved against the readers that undo it: the `%` expansion of the SSH client and
    the shell on Unix, the argument rule of the C runtime on Windows. */
module Quoting {
  import opened Core

  /** NUL, carriage return and line feed are refused. */
  predicate HasControl(value: string) { exists i | 0 <= i < |value| :: value[i] in {'\0', '\r', '\n'} }

  // Unix.

  function Escaped(c: char): string {
    if c == '%' then "%%" else if c == '\'' then "'\"'\"'" else [c]
  }

  function Escape(value: string): string {
    if value == "" then "" else Escaped(value[0]) + Escape(value[1..])
  }

  function UnixQuote(value: string): Option<string> {
    if HasControl(value) then None else Some("'" + Escape(value) + "'")
  }

  /** The client's expansion: `%%` is a percent sign. Other percent sequences are substitutions that never occur here.
    */
  function Expand(s: string): Option<string> {
    if s == "" then Some("")
    else if s[0] != '%' then
      var rest :- Expand(s[1..]);
      Some([s[0]] + rest)
    else if |s| >= 2 && s[1] == '%' then
      var rest :- Expand(s[2..]);
      Some("%" + rest)
    else None
  }

  datatype Mode = Plain | Single | Double

  /** Characters that are neither plain nor part of the quoting rules below; a command that has one unquoted is outside
      this reader. */
  predicate Special(c: char) { c in "|&;<>()$`*?[]#~=%{}!\n" }

  function Extend(word: Option<string>, c: char): Option<string> {
    Some((if word.Some? then word.value else "") + [c])
  }

  /** Field splitting after sections 2.2.1 to 2.2.3 of the Shell Command Language: `word` is the field in progress. */
  function Split(s: string, mode: Mode, word: Option<string>): Option<seq<string>>
    decreases |s|
  {
    if s == "" then
      if mode != Plain then None else Some(if word.Some? then [word.value] else [])
    else
      match mode
      case Single =>
        if s[0] == '\'' then Split(s[1..], Plain, word) else Split(s[1..], Single, Extend(word, s[0]))
      case Double =>
        if s[0] == '"' then Split(s[1..], Plain, word)
        else if s[0] in "$`" then None
        else if s[0] == '\\' && |s| >= 2 && s[1] in "$`\"\\" then Split(s[2..], Double, Extend(word, s[1]))
        else Split(s[1..], Double, Extend(word, s[0]))
      case Plain =>
        if s[0] == '\'' then Split(s[1..], Single, Some(if word.Some? then word.value else ""))
        else if s[0] == '"' then Split(s[1..], Double, Some(if word.Some? then word.value else ""))
        else if s[0] == ' ' || s[0] == '\t' then
          var rest :- Split(s[1..], Plain, None);
          Some(if word.Some? then [word.value] + rest else rest)
        else if s[0] == '\\' then
          if |s| >= 2 then Split(s[2..], Plain, Extend(word, s[1])) else None
        else if Special(s[0]) then None
        else Split(s[1..], Plain, Extend(word, s[0]))
  }

  /** The arguments separated by single blanks. */
  function Command(parts: seq<string>, quote: string -> Option<string>): Option<string> {
    if parts == [] then Some("")
    else
      var first :- quote(parts[0]);
      if |parts| == 1 then Some(first)
      else
        var rest :- Command(parts[1..], quote);
        Some(first + " " + rest)
  }

  /** What the shell sees of an escaped value. */
  function ShellForm(value: string): string {
    if value == "" then ""
    else (if value[0] == '\'' then "'\"'\"'" else [value[0]]) + ShellForm(value[1..])
  }

  lemma {:induction false} ExpandAppend(a: string, b: string)
    requires Expand(a).Some? && Expand(b).Some?
    ensures Expand(a + b) == Some(Expand(a).value + Expand(b).value)
    decreases |a|
  {
    if a == "" {
      assert a + b == b && "" + Expand(b).value == Expand(b).value;
    } else if a[0] != '%' {
      assert (a + b)[1..] == a[1..] + b;
      ExpandAppend(a[1..], b);
      AppendAssociative([a[0]], Expand(a[1..]).value, Expand(b).value);
    } else {
      assert (a + b)[2..] == a[2..] + b && (a + b)[1] == '%';
      ExpandAppend(a[2..], b);
      AppendAssociative("%", Expand(a[2..]).value, Expand(b).value);
    }
  }

  /** Text without percent signs expands to itself. */
  lemma {:induction false} ExpandPlain(s: string)
    requires '%' !in s
    ensures Expand(s) == Some(s)
  {
    if s != "" {
      ExpandPlain(s[1..]);
      assert [s[0]] + s[1..] == s;
    }
  }

  lemma ExpandEscaped(c: char)
    ensures Expand(Escaped(c)) == Some(if c == '\'' then "'\"'\"'" else [c])
  {
    if c == '%' {
      assert "%%"[2..] == "" && "%" + "" == "%";
    } else {
      ExpandPlain(Escaped(c));
    }
  }

  lemma {:induction false} ExpandEscape(value: string)
    ensures Expand(Escape(value)) == Some(ShellForm(value))
  {
    hide Escaped;
    if value != "" {
      ExpandEscaped(value[0]);
      ExpandEscape(value[1..]);
      ExpandAppend(Escaped(value[0]), Escape(value[1..]));
    }
  }

  lemma SingleQuoteStep(rest: string, w: string)
    ensures Split("'" + rest, Single, Some(w)) == Split(rest, Plain, Some(w))
    ensures Split("'" + rest, Double, Some(w)) == Split(rest, Double, Some(w + "'"))
    ensures Split("'" + rest, Plain, Some(w)) == Split(rest, Single, Some(w))
  {
    assert ("'" + rest)[1..] == rest;
  }

  lemma DoubleQuoteStep(rest: string, w: string)
    ensures Split("\"" + rest, Plain, Some(w)) == Split(rest, Double, Some(w))
    ensures Split("\"" + rest, Double, Some(w)) == Split(rest, Plain, Some(w))
  {
    assert ("\"" + rest)[1..] == rest;
  }

  /** Five steps take the reader over an escaped single quote. */
  lemma SplitQuote(rest: string, w: string)
    ensures Split("'\"'\"'" + rest, Single, Some(w)) == Split(rest, Single, Some(w + "'"))
  {
    hide Split;
    var s4 := "'" + rest;
    var s3 := "\"" + s4;
    var s2 := "'" + s3;
    var s1 := "\"" + s2;
    assert "'\"'\"'" + rest == "'" + s1;
    SingleQuoteStep(s1, w);
    DoubleQuoteStep(s2, w);
    SingleQuoteStep(s3, w);
    DoubleQuoteStep(s4, w + "'");
    SingleQuoteStep(rest, w + "'");
  }

  /** One character of the quoted form. */
  lemma SplitFirst(value: string, w: string, rest: string)
    requires value != ""
    ensures Split(ShellForm(value) + "'" + rest, Single, Some(w)) ==
            Split(ShellForm(value[1..]) + "'" + rest, Single, Some(w + [value[0]]))
  {
    var tail := ShellForm(value[1..]) + "'" + rest;
    if value[0] == '\'' {
      assert ShellForm(value) + "'" + rest == "'\"'\"'" + tail;
      SplitQuote(tail, w);
      hide Split;
    } else {
      assert (ShellForm(value) + "'" + rest)[1..] == tail;
    }
  }

  lemma {:induction false} SplitForm(value: string, w: string, rest: string)
    ensures Split(ShellForm(value) + "'" + rest, Single, Some(w)) == Split(rest, Plain, Some(w + value))
    decreases |value|
  {
    if value == "" {
      assert (ShellForm(value) + "'" + rest)[1..] == rest && w + value == w;
    } else {
      hide Split, ShellForm;
      assert w + [value[0]] + value[1..] == w + value;
      SplitFirst(value, w, rest);
      SplitForm(value[1..], w + [value[0]], rest);
    }
  }

  function ShellQuoted(value: string): string { "'" + ShellForm(value) + "'" }

  lemma SplitQuoted(value: string, rest: string)
    ensures Split(ShellQuoted(value) + rest, Plain, None) == Split(rest, Plain, Some(value))
  {
    assert ShellQuoted(value) + rest == "'" + (ShellForm(value) + "'" + rest);
    SplitForm(value, "", rest);
    assert "" + value == value;
  }

  lemma ExpandQuoted(value: string)
    requires !HasControl(value)
    ensures Expand(UnixQuote(value).value) == Some(ShellQuoted(value))
  {
    hide Escape, ShellForm, HasControl;
    ExpandEscape(value);
    ExpandPlain("'");
    ExpandAppend(Escape(value), "'");
    var inner := Escape(value) + "'";
    assert UnixQuote(value).value == "'" + inner;
    ExpandAppend("'", inner);
    assert ShellQuoted(value) == "'" + (ShellForm(value) + "'");
  }

  /** The command after the client's expansion. */
  function ShellCommand(parts: seq<string>): string {
    if parts == [] then "" else if |parts| == 1 then ShellQuoted(parts[0])
    else ShellQuoted(parts[0]) + (" " + ShellCommand(parts[1..]))
  }

  ghost predicate NoControl(parts: seq<string>) { forall i | 0 <= i < |parts| :: !HasControl(parts[i]) }

  lemma {:induction false} ExpandCommand(parts: seq<string>)
    requires NoControl(parts)
    ensures Command(parts, UnixQuote).Some? && Expand(Command(parts, UnixQuote).value) == Some(ShellCommand(parts))
  {
    hide HasControl, ShellQuoted;
    if parts != [] {
      ExpandQuoted(parts[0]);
      assert UnixQuote(parts[0]).Some?;
      hide UnixQuote;
      if |parts| > 1 {
        ExpandCommand(parts[1..]);
        var first, rest := UnixQuote(parts[0]).value, Command(parts[1..], UnixQuote).value;
        ExpandPlain(" ");
        ExpandAppend(" ", rest);
        ExpandAppend(first, " " + rest);
        AppendAssociative(first, " ", rest);
      }
    }
  }

  lemma {:induction false} SplitCommand(parts: seq<string>)
    ensures Split(ShellCommand(parts), Plain, None) == Some(parts)
  {
    hide ShellQuoted;
    if |parts| == 1 {
      assert ShellCommand(parts) == ShellQuoted(parts[0]) + "" && parts == [parts[0]];
      SplitQuoted(parts[0], "");
    } else if |parts| > 1 {
      var rest := ShellCommand(parts[1..]);
      SplitQuoted(parts[0], " " + rest);
      assert (" " + rest)[1..] == rest;
      SplitCommand(parts[1..]);
      assert parts == [parts[0]] + parts[1..];
    }
  }

  lemma {:induction false} CommandRefuses(parts: seq<string>, quote: string -> Option<string>)
    ensures Command(parts, quote).Some? <==> forall i | 0 <= i < |parts| :: quote(parts[i]).Some?
  {
    if parts != [] {
      CommandRefuses(parts[1..], quote);
      assert forall i | 1 <= i < |parts| :: parts[i] == parts[1..][i - 1];
    }
  }

  /** A command exists exactly for arguments without NUL, CR and LF; percent expansion and shell splitting turn it back
      into those very arguments. */
  lemma UnixRoundTrip(parts: seq<string>)
    ensures var command := Command(parts, UnixQuote);
            && (command.Some? <==> NoControl(parts))
            && (command.Some? ==>
                  && Expand(command.value).Some?
                  && Split(Expand(command.value).value, Plain, None) == Some(parts))
  {
    hide HasControl, Split, ShellCommand, Expand, Escape;
    CommandRefuses(parts, UnixQuote);
    if NoControl(parts) {
      ExpandCommand(parts);
      SplitCommand(parts);
    }
  }

  // Windows.

  function Slashes(n: nat): (s: string)
    ensures |s| == n && forall i | 0 <= i < n :: s[i] == '\\'
  {
    if n == 0 then "" else ['\\'] + Slashes(n - 1)
  }

  /** Length of the run of backslashes at the end. */
  function Trailing(s: string): (n: nat)
    ensures n <= |s|
  {
    if s == "" || s[|s| - 1] != '\\' then 0 else 1 + Trailing(s[..|s| - 1])
  }

  /** Length of the run of backslashes at the start. */
  function Leading(s: string): (n: nat)
    ensures n <= |s| && s[..n] == Slashes(n) && (n < |s| ==> s[n] != '\\')
  {
    if s == "" || s[0] != '\\' then 0
    else
      assert s == [s[0]] + s[1..];
      1 + Leading(s[1..])
  }

  predicate Unsafe(value: string) { HasControl(value) || '"' in value || '%' in value || '!' in value }

  function WindowsQuote(value: string): Option<string> {
    if Unsafe(value) then None else Some("\"" + value + Slashes(Trailing(value)) + "\"")
  }

  function Written(word: Option<string>, s: string): Option<string> {
    Some((if word.Some? then word.value else "") + s)
  }

  /** The argument rule of the C runtime: 2n backslashes before a quote are n backslashes and a delimiter, 2n+1 are n
      backslashes and a literal quote, all others stand for themselves. */
  function Arguments(s: string, quoted: bool, word: Option<string>): seq<string>
    decreases |s|
  {
    if s == "" then if word.Some? then [word.value] else []
    else if s[0] == '\\' then
      var n := Leading(s);
      if n == |s| || s[n] != '"' then Arguments(s[n..], quoted, Written(word, Slashes(n)))
      else if n % 2 == 1 then Arguments(s[n + 1..], quoted, Written(word, Slashes(n / 2) + "\""))
      else Arguments(s[n + 1..], !quoted, Written(word, Slashes(n / 2)))
    else if s[0] == '"' then Arguments(s[1..], !quoted, Written(word, ""))
    else if (s[0] == ' ' || s[0] == '\t') && !quoted then
      (if word.Some? then [word.value] else []) + Arguments(s[1..], false, None)
    else Arguments(s[1..], quoted, Written(word, [s[0]]))
  }

  lemma {:induction false} LeadingOf(n: nat, rest: string)
    requires rest == "" || rest[0] != '\\'
    ensures Leading(Slashes(n) + rest) == n
  {
    if n > 0 {
      assert (Slashes(n) + rest)[1..] == Slashes(n - 1) + rest;
      LeadingOf(n - 1, rest);
    } else {
      assert Slashes(0) + rest == rest;
    }
  }

  lemma {:induction false} SlashesAppend(m: nat, n: nat)
    ensures Slashes(m) + Slashes(n) == Slashes(m + n)
  {
    if m > 0 {
      SlashesAppend(m - 1, n);
    }
  }

  /** Dropping the front up to a character that is no backslash does not change the run at the end. */
  lemma {:induction false} TrailingAfter(front: string, c: char, tail: string)
    requires c != '\\'
    ensures Trailing(front + [c] + tail) == Trailing(tail)
    decreases |tail|
  {
    var s := front + [c] + tail;
    if tail != "" && tail[|tail| - 1] == '\\' {
      TrailingAfter(front, c, tail[..|tail| - 1]);
      assert s[..|s| - 1] == front + [c] + tail[..|tail| - 1];
    } else {
      assert s[|s| - 1] != '\\';
    }
  }

  lemma {:induction false} TrailingSlashes(n: nat)
    ensures Trailing(Slashes(n)) == n
  {
    if n > 0 {
      assert Slashes(n)[..n - 1] == Slashes(n - 1);
      TrailingSlashes(n - 1);
    }
  }

  lemma {:induction false} ReadValue(value: string, w: string, rest: string)
    requires '"' !in value
    ensures Arguments(value + Slashes(Trailing(value)) + "\"" + rest, true, Some(w)) ==
            Arguments(rest, false, Some(w + value))
    decreases |value|
  {
    hide Trailing, Slashes;
    var n := Leading(value);
    if n == |value| {
      assert value == Slashes(n);
      TrailingSlashes(n);
      SlashesAppend(n, n);
      ReadEnd(n, w, rest);
    } else {
      var c, tail := value[n], value[n + 1..];
      assert value == Slashes(n) + [c] + tail;
      TrailingAfter(Slashes(n), c, tail);
      var text := tail + Slashes(Trailing(tail)) + "\"" + rest;
      assert value + Slashes(Trailing(value)) + "\"" + rest == Slashes(n) + ([c] + text);
      ReadRun(n, c, w, text);
      ReadValue(tail, w + Slashes(n) + [c], rest);
      assert w + Slashes(n) + [c] + tail == w + value;
    }
  }

  lemma ReadEnd(n: nat, w: string, rest: string)
    ensures Arguments(Slashes(n + n) + "\"" + rest, true, Some(w)) == Arguments(rest, false, Some(w + Slashes(n)))
  {
    var tail := "\"" + rest;
    assert Slashes(n + n) + "\"" + rest == Slashes(n + n) + tail;
    if n == 0 {
      assert Slashes(0) + tail == tail && tail[1..] == rest && w + Slashes(0) == w + "";
    } else {
      LeadingOf(n + n, tail);
      ReadSlashes(Slashes(n + n) + tail, n, w, rest);
    }
  }

  /** 2n backslashes and a quote. */
  lemma ReadSlashes(s: string, n: nat, w: string, rest: string)
    requires n > 0 && s == Slashes(n + n) + ("\"" + rest) && Leading(s) == n + n
    ensures Arguments(s, true, Some(w)) == Arguments(rest, false, Some(w + Slashes(n)))
  {
    assert s[n + n + 1..] == rest && s[n + n] == '"' && s[0] == '\\';
    hide Leading, Slashes;
    assert (n + n) % 2 == 0 && (n + n) / 2 == n;
    assert Arguments(s, true, Some(w)) == Arguments(rest, false, Written(Some(w), Slashes(n)));
  }

  lemma ReadRun(n: nat, c: char, w: string, text: string)
    requires c != '"' && c != '\\'
    ensures Arguments(Slashes(n) + ([c] + text), true, Some(w)) == Arguments(text, true, Some(w + Slashes(n) + [c]))
  {
    var s := [c] + text;
    assert s[1..] == text;
    assert Arguments(s, true, Some(w + Slashes(n))) == Arguments(text, true, Some(w + Slashes(n) + [c]));
    if n == 0 {
      assert Slashes(0) + s == s && w + Slashes(0) == w;
    } else {
      LeadingOf(n, s);
      assert (Slashes(n) + s)[n..] == s && (Slashes(n) + s)[0] == '\\';
    }
  }

  lemma ReadQuoted(value: string, rest: string)
    requires !Unsafe(value)
    ensures Arguments(WindowsQuote(value).value + rest, false, None) == Arguments(rest, false, Some(value))
  {
    var inner := value + Slashes(Trailing(value)) + "\"" + rest;
    assert WindowsQuote(value).value + rest == "\"" + inner;
    assert ("\"" + inner)[1..] == inner && "" + "" == "";
    ReadValue(value, "", rest);
    assert "" + value == value;
  }

  /** A command exists exactly for safe arguments, and the argument rule turns it back into those very arguments. */
  lemma {:induction false} WindowsRoundTrip(parts: seq<string>)
    ensures var command := Command(parts, WindowsQuote);
            && (command.Some? <==> forall i | 0 <= i < |parts| :: !Unsafe(parts[i]))
            && (command.Some? ==> Arguments(command.value, false, None) == parts)
  {
    CommandRefuses(parts, WindowsQuote);
    var command := Command(parts, WindowsQuote);
    if command.Some? && |parts| == 1 {
      ReadQuoted(parts[0], "");
      assert command.value + "" == command.value && parts == [parts[0]];
    } else if command.Some? && |parts| > 1 {
      WindowsRoundTrip(parts[1..]);
      var first, rest := WindowsQuote(parts[0]).value, Command(parts[1..], WindowsQuote).value;
      ReadQuoted(parts[0], " " + rest);
      AppendAssociative(first, " ", rest);
      assert (" " + rest)[1..] == rest && [parts[0]] + parts[1..] == parts;
    }
  }

  // The loops.

  method UnixShellQuote(value: string) returns (r: Option<string>)
    ensures r == UnixQuote(value)
  {
    if HasControl(value) {
      return None;
    }
    var escaped := "'";
    var i := 0;
    while i < |value|
      invariant i <= |value| && escaped + Escape(value[i..]) == "'" + Escape(value)
    {
      AppendAssociative(escaped, Escaped(value[i]), Escape(value[i + 1..]));
      assert value[i..][1..] == value[i + 1..];
      if value[i] == '%' {
        escaped := escaped + "%%";
      } else if value[i] == '\'' {
        escaped := escaped + "'\"'\"'";
      } else {
        escaped := escaped + [value[i]];
      }
      i := i + 1;
    }
    assert escaped + "" == escaped;
    return Some(escaped + "'");
  }

  method WindowsArgQuote(value: string) returns (r: Option<string>)
    ensures r == WindowsQuote(value)
  {
    if Unsafe(value) {
      return None;
    }
    var out, slashRun, i := "\"", 0, 0;
    while i < |value|
      invariant i <= |value| && out == "\"" + value[..i] && slashRun == Trailing(value[..i])
    {
      assert value[..i + 1] == value[..i] + [value[i]] && value[..i + 1][..i] == value[..i];
      if value[i] == '\\' {
        slashRun := slashRun + 1;
      } else {
        slashRun := 0;
      }
      out := out + [value[i]];
      i := i + 1;
    }
    assert value[..|value|] == value;
    return Some(out + Slashes(slashRun) + "\"");
  }

  function Parts(executable: string, address: string, port: string, verbose: bool, key: string): seq<string> {
    [executable]
    + (if verbose then ["--verbose"] else []) + (if key != "" then ["--key=" + key] else [])
    + [address, port]
  }

  /** None of these characters occurs. */
  predicate Without(s: string, characters: string) { forall c | c in s :: c !in characters }

  lemma RefusedCharacters(s: string)
    ensures HasControl(s) <==> !Without(s, "\0\r\n")
    ensures Unsafe(s) <==> !Without(s, "\0\r\n\"%!")
  {
    forall c: char
      ensures c in "\0\r\n" <==> c in {'\0', '\r', '\n'}
      ensures c in "\0\r\n\"%!" <==> c in {'\0', '\r', '\n'} || c == '"' || c == '%' || c == '!'
    {
      var few, more := "\0\r\n", "\0\r\n\"%!";
      assert few[0] == '\0' && few[1] == '\r' && few[2] == '\n';
      assert more[..3] == few && more[3] == '"' && more[4] == '%' && more[5] == '!';
    }
    if HasControl(s) {
      var i :| 0 <= i < |s| && s[i] in {'\0', '\r', '\n'};
      assert s[i] in s;
    }
    if !Without(s, "\0\r\n") {
      var c :| c in s && c in "\0\r\n";
      var i :| 0 <= i < |s| && s[i] == c;
    }
    if !Without(s, "\0\r\n\"%!") {
      var c :| c in s && c in "\0\r\n\"%!";
      var i :| 0 <= i < |s| && s[i] == c;
    }
  }

  /** The arguments of the executable: the flags that are set, the address and the port, in this order. */
  function ExpectedArguments(executable: string, address: string, port: string, verbose: bool, key: string)
    : seq<string>
  {
    if verbose then
      if key == "" then [executable, "--verbose", address, port]
      else [executable, "--verbose", "--key=" + key, address, port]
    else if key == "" then [executable, address, port]
    else [executable, "--key=" + key, address, port]
  }

  lemma PartsExpected(executable: string, address: string, port: string, verbose: bool, key: string)
    ensures Parts(executable, address, port, verbose, key) == ExpectedArguments(executable, address, port, verbose, key)
  {
  }

  /** What the reader of the command gets is the executable and these arguments; and a command exists exactly if none of
      them holds a character that its reader cannot take. */
  lemma ProxyArguments(executable: string, address: string, port: string, verbose: bool, key: string)
    ensures var args := ExpectedArguments(executable, address, port, verbose, key);
            var command := Command(Parts(executable, address, port, verbose, key), UnixQuote);
            && (command.Some? <==> forall a | a in args :: Without(a, "\0\r\n"))
            && (command.Some? ==>
                  && Expand(command.value).Some?
                  && Split(Expand(command.value).value, Plain, None) == Some(args))
    ensures var args := ExpectedArguments(executable, address, port, verbose, key);
            var command := Command(Parts(executable, address, port, verbose, key), WindowsQuote);
            && (command.Some? <==> forall a | a in args :: Without(a, "\0\r\n\"%!"))
            && (command.Some? ==> Arguments(command.value, false, None) == args)
  {
    PartsExpected(executable, address, port, verbose, key);
    hide Command, WindowsQuote, UnixQuote, Expand, Split, Arguments, Without, HasControl, Unsafe, Parts;
    hide ExpectedArguments;
    var args := Parts(executable, address, port, verbose, key);
    forall a: string
      ensures (HasControl(a) <==> !Without(a, "\0\r\n")) && (Unsafe(a) <==> !Without(a, "\0\r\n\"%!"))
    {
      RefusedCharacters(a);
    }
    UnixRoundTrip(args);
    WindowsRoundTrip(args);
    assert forall a | a in args :: exists i | 0 <= i < |args| :: args[i] == a;
  }

  /** None when an argument is refused. */
  method SshProxyCommand(executable: string, address: string, port: string, verbose: bool, key: string, windows: bool)
    returns (r: Option<string>)
    ensures var parts := Parts(executable, address, port, verbose, key);
            r == if windows then Command(parts, WindowsQuote) else Command(parts, UnixQuote)
  {
    var parts := [executable];
    if verbose {
      parts := parts + ["--verbose"];
    }
    if key != "" {
      parts := parts + ["--key=" + key];
    }
    parts := parts + [address] + [port];
    assert parts == Parts(executable, address, port, verbose, key);
    r := Join(parts, windows);
  }

  lemma {:induction false} CommandSnoc(parts: seq<string>, last: string, quote: string -> Option<string>)
    requires parts != [] && Command(parts, quote).Some? && quote(last).Some?
    ensures Command(parts + [last], quote) == Some(Command(parts, quote).value + " " + quote(last).value)
  {
    var more := parts + [last];
    if |parts| == 1 {
      assert more[1..] == [last];
    } else {
      assert more[1..] == parts[1..] + [last];
      CommandSnoc(parts[1..], last, quote);
      var first, rest, end := quote(parts[0]).value, Command(parts[1..], quote).value, quote(last).value;
      assert first + " " + (rest + " " + end) == first + " " + rest + " " + end;
    }
  }

  method Join(parts: seq<string>, windows: bool) returns (r: Option<string>)
    ensures r == if windows then Command(parts, WindowsQuote) else Command(parts, UnixQuote)
  {
    ghost var quote := if windows then WindowsQuote else UnixQuote;
    hide Command, UnixQuote, WindowsQuote;
    var out, i := "", 0;
    CommandOne("", quote);
    assert parts[..0] == [];
    while i < |parts|
      invariant i <= |parts| && Command(parts[..i], quote) == Some(out)
    {
      var quoted;
      if windows {
        quoted := WindowsArgQuote(parts[i]);
      } else {
        quoted := UnixShellQuote(parts[i]);
      }
      assert quoted == quote(parts[i]);
      if quoted.None? {
        CommandRefuses(parts, quote);
        return None;
      }
      assert parts[..i + 1] == parts[..i] + [parts[i]];
      if i != 0 {
        CommandSnoc(parts[..i], parts[i], quote);
        out := out + " ";
      } else {
        CommandOne(parts[0], quote);
        assert parts[..1] == [parts[0]] && "" + quoted.value == quoted.value;
      }
      out := out + quoted.value;
      i := i + 1;
    }
    assert parts[..|parts|] == parts;
    return Some(out);
  }

  lemma CommandOne(part: string, quote: string -> Option<string>)
    ensures Command([], quote) == Some("") && Command([part], quote) == quote(part)
  {
  }
}
