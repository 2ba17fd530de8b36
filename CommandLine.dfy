/** The console command interpreter: a line editor over a fixed buffer of
    CMD_MAXLEN characters (GetCommand), a space-separated tokenizer with a
    cursor into that line (CommandToString), and the match of the first word
    against the three verbs (ProcessCommand). The pure functions below say
    what each call does to the line; the class CommandInterpreter holds the
    buffers and cursors the source keeps in globals, and its methods are
    proved against those functions. */
module CommandLine {

  newtype byte = x: int | 0 <= x < 0x100

  datatype Option<T> = None | Some(value: T)

  const CMD_MAXLEN: int := 72
  /** The longest line: one place is kept for the terminating NUL. */
  const MAX_LINE: int := CMD_MAXLEN - 1

  const CR: byte := 0x0d
  const LF_CHAR: char := 10 as char
  const CR_CHAR: char := 13 as char
  const BS: byte := 0x08
  const DEL: byte := 0x7f
  const CTRL_U: byte := 0x15
  const NUL: char := 0 as char

  const PROMPT: string := "CMD> "
  /** Backspace, space, backspace: erases one character on the terminal. */
  const RUBOUT: string := [8 as char, ' ', 8 as char]

  predicate IsPrintable(b: byte)
  {
    0x20 <= b <= 0x7e
  }

  predicate PrintableChar(c: char)
  {
    ' ' <= c <= '~'
  }

  predicate PrintableLine(s: string)
  {
    forall k :: 0 <= k < |s| ==> PrintableChar(s[k])
  }

  function ToChar(b: byte): (c: char)
    ensures IsPrintable(b) ==> PrintableChar(c)
  {
    (b as int) as char
  }

  function Repeat(s: string, n: nat): (r: string)
    ensures |r| == n * |s|
  {
    if n == 0 then [] else Repeat(s, n - 1) + s
  }

  // ---------------------------------------------------------------------
  // The line editor

  /** What a received character other than carriage return does to the line
      (lines 184-206): backspace and DEL drop the last character, ctrl-U
      drops them all, a printable character is appended while there is room,
      and anything else is ignored. */
  function EditLine(line: string, ch: byte): string
  {
    if ch == BS || ch == DEL then
      (if |line| > 0 then line[..|line| - 1] else line)
    else if ch == CTRL_U then []
    else if IsPrintable(ch) then
      (if |line| < MAX_LINE then line + [ToChar(ch)] else line)
    else line
  }

  /** What the editor echoes for that character. */
  function EditEcho(line: string, ch: byte): string
  {
    if ch == BS || ch == DEL then
      (if |line| > 0 then RUBOUT else [])
    else if ch == CTRL_U then Repeat(RUBOUT, |line|)
    else if IsPrintable(ch) then
      (if |line| < MAX_LINE then [ToChar(ch)] else [])
    else []
  }

  /** The editor's state machine: 0 prompts, 1 collects the line, 2 holds a
      complete line until the interpreter is reset. */
  datatype Editor = Editor(state: int, line: string)

  /** One call of GetCommand (lines 166-210). The input is the character the
      console delivers, if it has one; only state 1 reads it. */
  function Receive(e: Editor, input: Option<byte>): Editor
  {
    if e.state == 0 then Editor(1, [])
    else if e.state == 1 && input.Some? then
      (if input.value == CR then Editor(2, e.line) else Editor(1, EditLine(e.line, input.value)))
    else e
  }

  /** What one call of GetCommand writes to the console. */
  function ReceiveEcho(e: Editor, input: Option<byte>): string
  {
    if e.state == 0 then PROMPT
    else if e.state == 1 && input.Some? then
      (if input.value == CR then [CR_CHAR, LF_CHAR] else EditEcho(e.line, input.value))
    else []
  }

  /** Successive calls, one character each. */
  function ReceiveAll(e: Editor, inputs: seq<byte>): Editor
    decreases inputs
  {
    if |inputs| == 0 then e else ReceiveAll(Receive(e, Some(inputs[0])), inputs[1..])
  }

  /** The editor keeps the line within the buffer and printable. */
  lemma EditLineBounded(line: string, ch: byte)
    requires |line| <= MAX_LINE && PrintableLine(line)
    ensures |EditLine(line, ch)| <= MAX_LINE && PrintableLine(EditLine(line, ch))
  {
  }

  /** Backspace or DEL removes exactly the last character, if there is one. */
  lemma BackspaceDropsLast(line: string, ch: byte)
    requires ch == BS || ch == DEL
    ensures |line| > 0 ==> EditLine(line, ch) + [line[|line| - 1]] == line
    ensures |line| == 0 ==> EditLine(line, ch) == line
  {
  }

  /** A printable character typed and then rubbed out leaves the line as it
      was; when the line is full it is not taken at all. */
  lemma TypeThenBackspace(line: string, ch: byte, rub: byte)
    requires IsPrintable(ch) && (rub == BS || rub == DEL)
    ensures |line| < MAX_LINE ==> EditLine(EditLine(line, ch), rub) == line
    ensures |line| >= MAX_LINE ==> EditLine(line, ch) == line
  {
    if |line| < MAX_LINE {
      assert (line + [ToChar(ch)])[..|line|] == line;
    }
  }

  /** Ctrl-U empties the line and rubs out every character on the terminal. */
  lemma CtrlUEmpties(line: string)
    ensures EditLine(line, CTRL_U) == [] && |EditEcho(line, CTRL_U)| == 3 * |line|
  {
  }

  /** Control characters other than backspace, DEL, ctrl-U and carriage return
      (and the bytes 0x80 and above) change nothing and echo nothing. */
  lemma OthersIgnored(line: string, ch: byte)
    requires !IsPrintable(ch) && ch != BS && ch != DEL && ch != CTRL_U
    ensures EditLine(line, ch) == line && EditEcho(line, ch) == []
  {
  }

  /** Whatever arrives, the complete line of state 2 stays as it is. */
  lemma CompleteLineHeld(line: string, input: Option<byte>)
    ensures Receive(Editor(2, line), input) == Editor(2, line)
    ensures ReceiveEcho(Editor(2, line), input) == []
  {
  }

  /** Typing printable characters into the collecting editor appends them. */
  lemma {:induction false} TypePrintable(line: string, typed: seq<byte>)
    requires |line| + |typed| <= MAX_LINE
    requires forall k :: 0 <= k < |typed| ==> IsPrintable(typed[k])
    ensures ReceiveAll(Editor(1, line), typed) == Editor(1, line + Chars(typed))
    decreases typed
  {
    if |typed| > 0 {
      var next := line + [ToChar(typed[0])];
      assert Receive(Editor(1, line), Some(typed[0])) == Editor(1, next);
      TypePrintable(next, typed[1..]);
      assert next + Chars(typed[1..]) == line + Chars(typed);
    }
  }

  /** Characters typed past the end of a full line are dropped. */
  lemma {:induction false} TypeIntoFullLine(line: string, typed: seq<byte>)
    requires |line| == MAX_LINE
    requires forall k :: 0 <= k < |typed| ==> IsPrintable(typed[k])
    ensures ReceiveAll(Editor(1, line), typed) == Editor(1, line)
  {
    if |typed| > 0 {
      TypeIntoFullLine(line, typed[1..]);
    }
  }

  /** From the prompt, a line of printable characters and a carriage return
      leave the editor holding exactly that line. */
  lemma EnterLine(typed: seq<byte>, e: Editor)
    requires e.state == 0 && |typed| <= MAX_LINE
    requires forall k :: 0 <= k < |typed| ==> IsPrintable(typed[k])
    ensures ReceiveAll(Receive(e, None), typed + [CR]) == Editor(2, Chars(typed))
  {
    TypePrintable([], typed);
    ReceiveAllAppend(Editor(1, []), typed, [CR]);
    assert [] + Chars(typed) == Chars(typed);
  }

  lemma {:induction false} ReceiveAllAppend(e: Editor, s: seq<byte>, t: seq<byte>)
    ensures ReceiveAll(e, s + t) == ReceiveAll(ReceiveAll(e, s), t)
    decreases s
  {
    if |s| > 0 {
      assert (s + t)[0] == s[0] && (s + t)[1..] == s[1..] + t;
      ReceiveAllAppend(Receive(e, Some(s[0])), s[1..], t);
    } else {
      assert s + t == t;
    }
  }

  function Chars(bs: seq<byte>): (s: string)
    ensures |s| == |bs|
  {
    if |bs| == 0 then [] else [ToChar(bs[0])] + Chars(bs[1..])
  }

  // ---------------------------------------------------------------------
  // The tokenizer

  /** The first position at or after i that is not a space, or the end. */
  function SkipSpaces(line: string, i: nat): (r: nat)
    requires i <= |line|
    ensures i <= r <= |line|
    ensures forall k :: i <= k < r ==> line[k] == ' '
    ensures r == |line| || line[r] != ' '
    decreases |line| - i
  {
    if i < |line| && line[i] == ' ' then SkipSpaces(line, i + 1) else i
  }

  /** The first position at or after i that is a space, or the end. */
  function SkipWord(line: string, i: nat): (r: nat)
    requires i <= |line|
    ensures i <= r <= |line|
    ensures forall k :: i <= k < r ==> line[k] != ' '
    ensures r == |line| || line[r] == ' '
    decreases |line| - i
  {
    if i < |line| && line[i] != ' ' then SkipWord(line, i + 1) else i
  }

  /** The word CommandToString finds from the cursor: its bounds in the line. */
  datatype Span = Span(begin: nat, end: nat)

  function NextWord(line: string, cursor: nat): (w: Span)
    ensures cursor <= w.begin <= w.end
    ensures cursor <= |line| ==> w.end <= |line|
    ensures cursor > |line| ==> w == Span(cursor, cursor)
  {
    if cursor > |line| then Span(cursor, cursor)
    else
      var b := SkipSpaces(line, cursor);
      Span(b, SkipWord(line, b))
  }

  /** The text of that word; there is none past the end of the line. */
  function Token(line: string, cursor: nat): (t: string)
    ensures forall k :: 0 <= k < |t| ==> t[k] != ' '
  {
    var w := NextWord(line, cursor);
    if w.end <= |line| then line[w.begin..w.end] else []
  }

  /** The word found after the cursor is the run that follows the spaces:
      everything skipped is a space, the word has no space and cannot be
      extended, and it is empty exactly when only spaces remain. */
  lemma NextWordMaximal(line: string, cursor: nat)
    requires cursor <= |line|
    ensures var w := NextWord(line, cursor);
      && (forall k :: cursor <= k < w.begin ==> line[k] == ' ')
      && (forall k :: w.begin <= k < w.end ==> line[k] != ' ')
      && (w.end == |line| || line[w.end] == ' ')
      && (w.begin == w.end <==> forall k :: cursor <= k < |line| ==> line[k] == ' ')
  {
  }

  /** Spaces, a word, then a space or the end: the tokenizer returns that word. */
  lemma NextWordOf(spaces: string, word: string, rest: string)
    requires forall k :: 0 <= k < |spaces| ==> spaces[k] == ' '
    requires forall k :: 0 <= k < |word| ==> word[k] != ' '
    requires |word| > 0 && (rest == [] || rest[0] == ' ')
    ensures var line := spaces + word + rest;
      NextWord(line, 0) == Span(|spaces|, |spaces| + |word|)
  {
    var line := spaces + word + rest;
    SkipSpacesOver(line, 0, |spaces|);
    SkipWordOver(line, |spaces|, |spaces| + |word|);
  }

  lemma {:induction false} SkipSpacesOver(line: string, i: nat, j: nat)
    requires i <= j <= |line|
    requires forall k :: i <= k < j ==> line[k] == ' '
    requires j == |line| || line[j] != ' '
    ensures SkipSpaces(line, i) == j
    decreases j - i
  {
    if i < j {
      SkipSpacesOver(line, i + 1, j);
    }
  }

  lemma {:induction false} SkipWordOver(line: string, i: nat, j: nat)
    requires i <= j <= |line|
    requires forall k :: i <= k < j ==> line[k] != ' '
    requires j == |line| || line[j] == ' '
    ensures SkipWord(line, i) == j
    decreases j - i
  {
    if i < j {
      SkipWordOver(line, i + 1, j);
    }
  }

  /** A second call starts where the first word ended, so it finds the next
      word: it begins after at least one space, or the line is exhausted. */
  lemma SuccessiveWords(line: string, cursor: nat)
    requires cursor <= |line|
    ensures var w1 := NextWord(line, cursor);
      var w2 := NextWord(line, w1.end);
      && w1.end <= w2.begin
      && (w2.begin == w1.end ==> w2.begin == |line| || w1.begin == w1.end)
  {
  }

  // ---------------------------------------------------------------------
  // The verb match

  datatype Verb = Move | Speed | Jerk | NoVerb

  /** The C string held by a character array: everything before the first NUL. */
  function CString(s: seq<char>): (r: seq<char>)
    ensures |r| <= |s| && r == s[..|r|] && NUL !in r
    ensures |r| < |s| ==> s[|r|] == NUL
  {
    if |s| == 0 || s[0] == NUL then [] else [s[0]] + CString(s[1..])
  }

  lemma {:induction false} CStringOfTerminated(word: string, tail: seq<char>)
    requires NUL !in word
    ensures CString(word + [NUL] + tail) == word
  {
    if |word| > 0 {
      assert (word + [NUL] + tail)[1..] == word[1..] + [NUL] + tail;
      CStringOfTerminated(word[1..], tail);
    }
  }

  /** Lines 216-224: strcmp against each verb in turn. */
  function VerbOf(word: string): (v: Verb)
    ensures v == Move <==> word == "mv"
    ensures v == Speed <==> word == "sp"
    ensures v == Jerk <==> word == "jk"
  {
    if word == "mv" then Move else if word == "sp" then Speed else if word == "jk" then Jerk else NoVerb
  }

  // ---------------------------------------------------------------------
  // The interpreter's globals

  class CommandInterpreter {
    /** cmd_buffer: the line so far, NUL-terminated while it is edited. */
    const buffer: array<char>
    /** cmd_string: the word last copied out by CommandToString. */
    const word: array<char>
    var length: int
    var state: int
    var wordBegin: int
    var wordEnd: int
    var wordLength: int

    ghost predicate Valid()
      reads this, buffer
    {
      && buffer.Length == CMD_MAXLEN && word.Length == CMD_MAXLEN + 1 && buffer != word
      && 0 <= length <= MAX_LINE && 0 <= state <= 2
      && PrintableLine(buffer[..length])
      && (state >= 1 ==> buffer[length] == NUL)
      && 0 <= wordBegin <= wordEnd <= MAX_LINE
    }

    function Line(): string
      reads this, buffer
      requires 0 <= length <= buffer.Length
    {
      buffer[..length]
    }

    ghost function Edit(): Editor
      reads this, buffer
      requires 0 <= length <= buffer.Length
    {
      Editor(state, Line())
    }

    /** The globals as the program starts them: all zero, then InitCommand. */
    constructor ()
      ensures Valid() && state == 0 && Line() == []
      ensures fresh(buffer) && fresh(word)
    {
      buffer := new char[CMD_MAXLEN](_ => NUL);
      word := new char[CMD_MAXLEN + 1](_ => NUL);
      new;
      InitCommand();
    }

    /** InitCommand (lines 156-163): an empty line and the cursor at its start;
        the next GetCommand prompts. */
    method InitCommand()
      requires buffer.Length == CMD_MAXLEN && word.Length == CMD_MAXLEN + 1 && buffer != word
      modifies this`length, this`state, this`wordBegin, this`wordEnd, this`wordLength
      ensures Valid() && state == 0 && Line() == []
      ensures wordBegin == 0 && wordEnd == 0 && wordLength == 0
    {
      length := 0;
      state := 0;
      wordBegin := 0;
      wordEnd := 0;
      wordLength := 0;
    }

    /** GetCommand (lines 166-210) with console.readable/getc as the input
        and what it prints as the echo; the result says whether a complete
        line is waiting. */
    method GetCommand(input: Option<byte>) returns (complete: bool, echo: string)
      requires Valid()
      modifies this`length, this`state, buffer
      ensures Valid()
      ensures Edit() == Receive(old(Edit()), input)
      ensures echo == ReceiveEcho(old(Edit()), input)
      ensures complete <==> state == 2
    {
      echo := [];
      if state == 0 {
        length := 0;
        buffer[length] := NUL;
        echo := PROMPT;
        state := state + 1;
      } else if state == 1 {
        if input.Some? {
          var ch := input.value;
          if ch == CR {
            echo := [CR_CHAR, LF_CHAR];
            state := state + 1;
          } else if ch == BS || ch == DEL {
            if length > 0 {
              echo := RUBOUT;
              length := length - 1;
              buffer[length] := NUL;
            }
          } else if ch == CTRL_U {
            echo := RubOut();
          } else if IsPrintable(ch) {
            if length < MAX_LINE {
              echo := [ToChar(ch)];
              buffer[length] := ToChar(ch);
              length := length + 1;
              buffer[length] := NUL;
              assert Line() == old(Line()) + [ToChar(ch)];
            }
          }
        }
      }
      complete := state == 2;
    }

    /** Lines 193-199: ctrl-U rubs out the line one character at a time. */
    method RubOut() returns (echo: string)
      requires Valid() && state == 1
      modifies this`length, buffer
      ensures Valid() && length == 0
      ensures echo == Repeat(RUBOUT, old(length))
    {
      ghost var line0 := Line();
      echo := [];
      while length > 0
        invariant 0 <= length <= |line0| && buffer[..length] == line0[..length]
        invariant buffer[length] == NUL
        invariant echo == Repeat(RUBOUT, |line0| - length)
        decreases length
      {
        echo := echo + RUBOUT;
        length := length - 1;
        buffer[length] := NUL;
      }
    }

    /** CommandToString (lines 228-247): from the end of the last word, skip
        spaces, then copy the following run of non-spaces to the word array
        and terminate it. */
    method CommandToString()
      requires Valid()
      modifies this`wordBegin, this`wordEnd, word
      ensures Valid()
      ensures Span(wordBegin, wordEnd) == NextWord(Line(), old(wordEnd))
      ensures word[..wordEnd - wordBegin] == buffer[wordBegin..wordEnd]
      ensures word[wordEnd - wordBegin] == NUL
    {
      var b, e := FindWord(wordEnd);
      wordBegin, wordEnd := b, e;
      CopyWord(b, e);
    }

    /** Lines 232-242 without the copy: the cursor skips spaces, then the
        word's end skips non-spaces, both stopping at the end of the line. */
    method FindWord(cursor: int) returns (b: int, e: int)
      requires Valid() && 0 <= cursor <= MAX_LINE
      ensures 0 <= b <= e <= MAX_LINE && Span(b, e) == NextWord(Line(), cursor)
    {
      ghost var line := Line();
      b := cursor;
      while buffer[b] == ' ' && b < length
        invariant cursor <= b <= MAX_LINE
        invariant cursor <= length ==> b <= length && SkipSpaces(line, b) == SkipSpaces(line, cursor)
        invariant cursor > length ==> b == cursor
        decreases length - b
      {
        b := b + 1;
      }

      e := b;
      while buffer[e] != ' ' && e < length
        invariant b <= e <= MAX_LINE
        invariant b <= length ==> e <= length && SkipWord(line, e) == SkipWord(line, b)
        invariant b > length ==> e == b
        decreases length - e
      {
        e := e + 1;
      }
    }

    /** Lines 240-246: the copy into cmd_string and its terminating NUL. */
    method CopyWord(b: int, e: int)
      requires Valid() && 0 <= b <= e <= MAX_LINE
      modifies word
      ensures word[..e - b] == buffer[b..e] && word[e - b] == NUL
    {
      var i := 0;
      while i < e - b
        invariant 0 <= i <= e - b && word[..i] == buffer[b..b + i]
      {
        word[i] := buffer[b + i];
        i := i + 1;
      }
      word[i] := NUL;
    }

    /** ProcessCommand's dispatch (lines 213-225): the first word of the line
        chooses the command. The commands themselves parse their argument
        with strtol and are not part of this model. */
    method ProcessCommand() returns (verb: Verb)
      requires Valid()
      modifies this`wordBegin, this`wordEnd, word
      ensures Valid()
      ensures Span(wordBegin, wordEnd) == NextWord(Line(), old(wordEnd))
      ensures verb == VerbOf(Token(Line(), old(wordEnd)))
    {
      CommandToString();
      ghost var token := buffer[wordBegin..wordEnd];
      assert token == Token(Line(), old(wordEnd));
      assert NUL !in token;
      assert word[..] == token + [NUL] + word[wordEnd - wordBegin + 1..];
      CStringOfTerminated(token, word[wordEnd - wordBegin + 1..]);
      var s := CString(word[..]);
      if s == "mv" {
        verb := Move;
      } else if s == "sp" {
        verb := Speed;
      } else if s == "jk" {
        verb := Jerk;
      } else {
        verb := NoVerb;
      }
    }
  }
}
