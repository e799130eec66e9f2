/** The bounded line reader: comments, continuations, and what it may write. */
module LineReader {
  import opened Words

  /** What the program stores when a comment runs into the end of the file. */
  const EOF_BYTE := '\U{FF}'

  /** Input still to be read. */
  class Stream {
    var rest: string

    constructor (text: string)
      ensures rest == text
    {
      rest := text;
    }

    /** The next character, or none at the end of the file. */
    method Getc() returns (c: char, eof: bool)
      modifies this
      ensures eof == (old(rest) == "")
      ensures eof ==> rest == ""
      ensures !eof ==> c == old(rest)[0] && rest == old(rest)[1..]
    {
      eof := rest == "";
      c := EOF_BYTE;
      if !eof {
        c := rest[0];
        rest := rest[1..];
      }
    }

    /** Push a character back; pushing back the end of the file does nothing. */
    method Ungetc(c: char, eof: bool)
      modifies this
      ensures rest == if eof then old(rest) else [c] + old(rest)
    {
      if !eof {
        rest := [c] + rest;
      }
    }
  }

  datatype Stop = Full | Ended | Eof

  /** What one call stores, what it leaves unread, and why it stopped. */
  datatype Scanned = Scanned(out: string, rest: string, stop: Stop)

  /** The text from the newline on that ends a comment. */
  function SkipComment(t: string): (r: string)
    ensures |r| <= |t| && (r != [] ==> r[0] == '\n')
  {
    if t == [] || t[0] == '\n' then t else SkipComment(t[1..])
  }

  predicate IsBlank(c: char) {
    c == ' ' || c == '\t'
  }

  function TrimBlanks(t: string): (r: string)
    ensures |r| <= |t|
  {
    if t != [] && IsBlank(t[0]) then TrimBlanks(t[1..]) else t
  }

  /** The loop of the reader from a state with `out` stored: one branch per character kind. */
  function Scan(t: string, out: string, quoted: bool, limit: nat): Scanned
    decreases |t|
  {
    if |out| >= limit then Scanned(out, t, Full)
    else if t == [] then Scanned(out, [], Eof)
    else
      var c, r := t[0], t[1..];
      if c == '\\' && !quoted then Scan(r, out, true, limit)
      else if c == '#' then
        if quoted then Scan(r, out, false, limit)
        else
          var e := SkipComment(r);
          if e == [] then Scanned(out + [EOF_BYTE], [], Eof) else Scanned(out + ['\n'], e[1..], Ended)
      else if c == '\n' then
        if quoted then Scan(TrimBlanks(r), out, false, limit) else Scanned(out + ['\n'], r, Ended)
      else if c == '\r' then
        var s := if r != [] && r[0] == '\n' then r[1..] else r;
        if quoted then Scan(s, out + ['\n'], false, limit) else Scanned(out + ['\n'], s, Ended)
      else Scan(r, out + (if quoted then ['\\', c] else [c]), false, limit)
  }

  /** The line without its newline. */
  function Chomp(out: string): string {
    if out != [] && out[|out| - 1] == '\n' then
      var s := out[..|out| - 1];
      if s != [] && s[|s| - 1] == '\r' then s[..|s| - 1] else s
    else out
  }

  predicate NothingRead(r: Scanned) {
    r.stop.Eof? && r.out == []
  }

  /** At most two characters are stored past the limit check, so one more NUL fits. */
  lemma {:induction false} ScanFits(t: string, out: string, quoted: bool, limit: nat)
    requires |out| <= limit + 1
    ensures |Scan(t, out, quoted, limit).out| <= limit + 1
    decreases |t|
  {
    if |out| < limit && t != [] {
      var c, r := t[0], t[1..];
      if c == '\\' && !quoted {
        ScanFits(r, out, true, limit);
      } else if c == '#' {
        if quoted {
          ScanFits(r, out, false, limit);
        }
      } else if c == '\n' {
        if quoted {
          ScanFits(TrimBlanks(r), out, false, limit);
        }
      } else if c == '\r' {
        if quoted {
          ScanFits(if r != [] && r[0] == '\n' then r[1..] else r, out + ['\n'], false, limit);
        }
      } else {
        ScanFits(r, out + (if quoted then ['\\', c] else [c]), false, limit);
      }
    }
  }

  /** What the buffer holds when s characters have been stored. */
  ghost predicate Holds(line: array<char>, out: string, before: seq<char>)
    reads line
  {
    |before| == line.Length && |out| <= line.Length && line[..] == out + before[|out|..]
  }

  lemma HoldsMore(before: seq<char>, out: string, c: char)
    requires |out| < |before|
    ensures (out + before[|out|..])[|out| := c] == (out + [c]) + before[|out| + 1..]
  {
  }

  method Store(line: array<char>, s: nat, c: char, ghost out: string, ghost before: seq<char>)
    requires s == |out| < line.Length && Holds(line, out, before)
    modifies line
    ensures Holds(line, out + [c], before)
  {
    HoldsMore(before, out, c);
    line[s] := c;
  }

  /** Read to the end of a comment; the newline itself is consumed too. */
  method SkipToNewline(stream: Stream) returns (c: char, eof: bool)
    modifies stream
    ensures var e := SkipComment(old(stream.rest));
            eof == (e == []) && (eof ==> stream.rest == [] && c == EOF_BYTE) && (!eof ==> c == '\n' && stream.rest == e[1..])
  {
    c, eof := stream.Getc();
    while c != '\n' && !eof
      invariant eof ==> stream.rest == []
      invariant SkipComment(if eof then [] else [c] + stream.rest) == SkipComment(old(stream.rest))
      decreases |stream.rest|, !eof
    {
      c, eof := stream.Getc();
    }
    if eof {
      c := EOF_BYTE;
    }
  }

  method SkipBlanks(stream: Stream)
    modifies stream
    ensures stream.rest == TrimBlanks(old(stream.rest))
  {
    var c, eof := stream.Getc();
    while !eof && IsBlank(c)
      invariant eof ==> stream.rest == []
      invariant TrimBlanks(if eof then [] else [c] + stream.rest) == TrimBlanks(old(stream.rest))
      decreases |stream.rest|, !eof
    {
      c, eof := stream.Getc();
    }
    stream.Ungetc(c, eof);
  }

  /** What is left in the buffer: the line, its terminator, and a second NUL where the newline
      was. */
  ghost function WithTerminators(out: string): seq<char> {
    Chomp(out) + [NUL] + seq(|out| - |Chomp(out)|, i => NUL)
  }

  /** The loop: store until a newline, the end of the file, or the limit. */
  method ReadInto(line: array<char>, stream: Stream) returns (s: nat, eof: bool, ghost out: string)
    requires line.Length >= 2
    modifies line, stream
    ensures var r := Scan(old(stream.rest), [], false, line.Length - 2);
            && out == r.out && stream.rest == r.rest && s == |out| < line.Length
            && Holds(line, out, old(line[..])) && ((eof && s == 0) == NothingRead(r))
  {
    ghost var before := line[..];
    ghost var r := Scan(stream.rest, [], false, line.Length - 2);
    var end := line.Length - 2;
    var quoted := false;
    s, eof, out := 0, false, [];
    while s < end
      invariant s == |out| <= end + 1 && Holds(line, out, before) && !eof
      invariant r == Scan(stream.rest, out, quoted, end)
      decreases |stream.rest|
    {
      var c;
      ghost var was, had := out, quoted;
      c, eof := stream.Getc();
      if eof {
        break;
      }
      ghost var left := stream.rest;
      if c == '\\' && !quoted {
        quoted := true;
      } else if c == '#' {
        if !quoted {
          c, eof := SkipToNewline(stream);
          Store(line, s, c, out, before);
          s, out := s + 1, out + [c];
          break;
        }
        quoted := false;
      } else if c == '\n' {
        if !quoted {
          Store(line, s, c, out, before);
          s, out := s + 1, out + [c];
          break;
        }
        SkipBlanks(stream);
        quoted := false;
      } else if c == '\r' {
        Store(line, s, '\n', out, before);
        s, out := s + 1, out + ['\n'];
        var c2, eof2 := stream.Getc();
        if eof2 || c2 != '\n' {
          stream.Ungetc(c2, eof2);
        }
        assert stream.rest == if left != [] && left[0] == '\n' then left[1..] else left;
        if !quoted {
          break;
        }
        quoted := false;
      } else {
        if quoted {
          Store(line, s, '\\', out, before);
          s, out := s + 1, out + ['\\'];
          quoted := false;
        }
        Store(line, s, c, out, before);
        s, out := s + 1, out + [c];
        assert out == was + (if had then ['\\', c] else [c]);
      }
    }
  }

  /** Read one line. No size of at least 2 and no input makes it write outside the buffer;
      the result is always terminated, and bytes past the terminators stay as they were. */
  method FGetLine(line: array<char>, stream: Stream) returns (ok: bool)
    requires line.Length >= 2
    modifies line, stream
    ensures var r := Scan(old(stream.rest), [], false, line.Length - 2);
            && stream.rest == r.rest && ok == !NothingRead(r) && |r.out| < line.Length
            && (ok ==> line[..] == WithTerminators(r.out) + old(line[..])[|r.out| + 1..])
  {
    ghost var before := line[..];
    var s, eof;
    ghost var out;
    s, eof, out := ReadInto(line, stream);
    if eof && s == 0 {
      return false;
    }
    Terminate(line, s, out, before);
    ok := true;
  }

  /** Write the terminator, and remove the newline and a carriage return before it. */
  method Terminate(line: array<char>, end: nat, ghost out: string, ghost before: seq<char>)
    requires end == |out| < line.Length && Holds(line, out, before)
    modifies line
    ensures line[..] == WithTerminators(out) + before[|out| + 1..]
  {
    var s := end;
    line[s] := NUL;
    if s > 0 && line[s - 1] == '\n' {
      s := s - 1;
      line[s] := NUL;
      if s > 0 && line[s - 1] == '\r' {
        s := s - 1;
        line[s] := NUL;
      }
    }
  }
}
