/** The context block the question prompt carries: one line `[id] text` per
    retrieved chunk, the lines joined with a newline. Alongside the
    formatter, a parser for the same layout, so that what the prompt says
    about each chunk can be read back. */
module Context {
  import opened Chunks

  /** The decimal digit for `d`. */
  function DigitChar(d: nat): (c: char)
    requires d < 10
    ensures '0' <= c <= '9'
    ensures (c as int) - ('0' as int) == d
  {
    ('0' as int + d) as char
  }

  /** The value of a decimal digit character. */
  function DigitValue(c: char): (d: nat)
    requires '0' <= c <= '9'
    ensures d < 10
  {
    (c as int) - ('0' as int)
  }

  predicate AllDigits(s: string)
  {
    forall i :: 0 <= i < |s| ==> '0' <= s[i] <= '9'
  }

  /** Decimal notation of a natural number, as a template literal prints it:
      no sign and no leading zero. */
  function Digits(n: nat): (s: string)
    ensures |s| > 0 && AllDigits(s)
    ensures s[0] == '0' ==> n == 0
  {
    if n < 10 then [DigitChar(n)] else Digits(n / 10) + [DigitChar(n % 10)]
  }

  /** The value of a non-empty string of decimal digits. */
  function ParseDigits(s: string): nat
    requires |s| > 0 && AllDigits(s)
  {
    if |s| == 1 then DigitValue(s[0])
    else ParseDigits(s[..|s| - 1]) * 10 + DigitValue(s[|s| - 1])
  }

  /** Reading the decimal notation of `n` gives `n` back. */
  lemma {:induction false} DigitsRoundTrip(n: nat)
    ensures ParseDigits(Digits(n)) == n
  {
    if n >= 10 {
      var s := Digits(n);
      DigitsRoundTrip(n / 10);
      assert s[..|s| - 1] == Digits(n / 10);
    }
  }

  /** `${id}` for an integer id: a minus sign before the digits of a negative
      number. */
  function IntToString(n: int): (s: string)
    ensures |s| > 0
    ensures forall i :: 0 <= i < |s| ==> s[i] == '-' || '0' <= s[i] <= '9'
  {
    if n < 0 then "-" + Digits(-n) else Digits(n)
  }

  /** Integer notation: an optional minus sign and at least one digit. */
  function ParseInt(s: string): (r: Option<int>)
    ensures r.None? <==> !(|s| > 0 && ((s[0] == '-' && |s| > 1 && AllDigits(s[1..])) || AllDigits(s)))
  {
    if |s| > 1 && s[0] == '-' && AllDigits(s[1..]) then Some(-(ParseDigits(s[1..]) as int))
    else if |s| > 0 && AllDigits(s) then Some(ParseDigits(s))
    else None
  }

  /** Every id reads back from its notation, so distinct ids print differently. */
  lemma IntRoundTrip(n: int)
    ensures ParseInt(IntToString(n)) == Some(n)
  {
    if n < 0 {
      var s := IntToString(n);
      assert s[1..] == Digits(-n);
      assert !AllDigits(s) by { assert s[0] == '-'; }
      DigitsRoundTrip(-n);
    } else {
      DigitsRoundTrip(n);
    }
  }

  /** `[${c.id}] ${c.text}`. */
  function ContextLine(c: Chunk): (line: string)
    ensures |line| >= 3 + |c.text| && line[0] == '['
    ensures line[|line| - |c.text|..] == c.text
  {
    "[" + IntToString(c.id) + "] " + c.text
  }

  /** The lines of the context block, one per chunk, in order. */
  function ContextLines(chunks: seq<Chunk>): (lines: seq<string>)
    ensures |lines| == |chunks|
    ensures forall i :: 0 <= i < |chunks| ==> lines[i] == ContextLine(chunks[i])
  {
    if |chunks| == 0 then [] else [ContextLine(chunks[0])] + ContextLines(chunks[1..])
  }

  /** The number of characters in all the lines together. */
  function TotalLength(lines: seq<string>): nat
  {
    if |lines| == 0 then 0 else |lines[0]| + TotalLength(lines[1..])
  }

  /** `Array.prototype.join("\n")`: the empty list gives the empty string;
      otherwise the result starts with the first line and adds exactly one
      separator between neighbouring lines. */
  function Join(lines: seq<string>): (r: string)
    ensures |lines| == 0 ==> r == ""
    ensures |lines| > 0 ==> |r| == TotalLength(lines) + |lines| - 1
    ensures |lines| > 0 ==> r[..|lines[0]|] == lines[0]
  {
    if |lines| == 0 then ""
    else if |lines| == 1 then lines[0]
    else lines[0] + "\n" + Join(lines[1..])
  }

  /** `chunks.map(c => `[${c.id}] ${c.text}`).join("\n")`: empty exactly when
      there are no chunks, and otherwise opening with the bracket of the first
      line. */
  function ContextBlock(chunks: seq<Chunk>): (block: string)
    ensures block == "" <==> |chunks| == 0
    ensures |chunks| > 0 ==> block[0] == '['
  {
    var lines := ContextLines(chunks);
    if |chunks| == 0 then Join(lines)
    else
      var block := Join(lines);
      assert block[..|lines[0]|] == lines[0];
      block
  }

  /** Cuts a string at every newline: there is at least one piece, and no
      piece holds a newline. */
  function Split(s: string): (pieces: seq<string>)
    ensures |pieces| > 0
    ensures forall i :: 0 <= i < |pieces| ==> '\n' !in pieces[i]
  {
    if |s| == 0 then [""]
    else
      var rest := Split(s[1..]);
      if s[0] == '\n' then [""] + rest
      else [[s[0]] + rest[0]] + rest[1..]
  }

  /** Splitting a line with no newline gives the line itself. */
  lemma {:induction false} SplitOneLine(a: string)
    requires '\n' !in a
    ensures Split(a) == [a]
  {
    if |a| > 0 {
      assert '\n' !in a[1..] by {
        forall i | 0 <= i < |a[1..]| ensures a[1..][i] != '\n' {
          assert a[1..][i] == a[i + 1];
        }
      }
      SplitOneLine(a[1..]);
      assert [a[0]] + a[1..] == a;
    }
  }

  /** A line with no newline, a newline and more text split at that newline. */
  lemma {:induction false} SplitAtNewline(a: string, b: string)
    requires '\n' !in a
    ensures Split(a + "\n" + b) == [a] + Split(b)
    decreases |a|
  {
    var s := a + "\n" + b;
    if |a| == 0 {
      assert s[1..] == b;
    } else {
      assert s[1..] == a[1..] + "\n" + b;
      assert '\n' !in a[1..] by {
        forall i | 0 <= i < |a[1..]| ensures a[1..][i] != '\n' {
          assert a[1..][i] == a[i + 1];
        }
      }
      SplitAtNewline(a[1..], b);
      assert [a[0]] + a[1..] == a;
    }
  }

  /** Splitting the joined lines gives the lines back when none holds a
      newline and there is at least one (the empty list joins to the same
      string as a single empty line). */
  lemma {:induction false} SplitJoin(lines: seq<string>)
    requires |lines| > 0
    requires forall i :: 0 <= i < |lines| ==> '\n' !in lines[i]
    ensures Split(Join(lines)) == lines
  {
    if |lines| == 1 {
      SplitOneLine(lines[0]);
    } else {
      SplitJoin(lines[1..]);
      SplitAtNewline(lines[0], Join(lines[1..]));
      assert lines == [lines[0]] + lines[1..];
    }
  }

  /** Joining the pieces of a split gives the string back. */
  lemma {:induction false} JoinSplit(s: string)
    ensures Join(Split(s)) == s
  {
    if |s| > 0 {
      var rest := Split(s[1..]);
      JoinSplit(s[1..]);
      if s[0] == '\n' {
        assert Join([""] + rest) == "" + "\n" + Join(rest);
      } else {
        var p := [[s[0]] + rest[0]] + rest[1..];
        if |rest| == 1 {
          assert Join(p) == [s[0]] + rest[0];
        } else {
          assert p[1..] == rest[1..];
          assert Join(rest) == rest[0] + "\n" + Join(rest[1..]);
          assert Join(p) == ([s[0]] + rest[0]) + "\n" + Join(rest[1..]);
        }
        assert s == [s[0]] + s[1..];
      }
    }
  }

  /** What one context line says about its chunk. */
  datatype Entry = Entry(id: int, text: string)

  /** The position of the first `c` in `s`, if any. */
  function IndexOf(s: string, c: char): (r: Option<nat>)
    ensures r.None? <==> c !in s
    ensures r.Some? ==> r.value < |s| && s[r.value] == c && c !in s[..r.value]
  {
    if |s| == 0 then None
    else if s[0] == c then Some(0)
    else
      var r := IndexOf(s[1..], c);
      if r.None? then None
      else
        assert s[..r.value + 1] == [s[0]] + s[1..][..r.value];
        Some(r.value + 1)
  }

  /** Reads `[id] text`: an opening bracket, an integer up to the first
      closing bracket, one space, then the text. */
  function ParseContextLine(line: string): (r: Option<Entry>)
    ensures r.Some? ==> |line| > 0 && line[0] == '['
  {
    if |line| == 0 || line[0] != '[' then None
    else
      match IndexOf(line, ']')
      case None => None
      case Some(j) =>
        if j < 1 || j + 1 >= |line| || line[j + 1] != ' ' then None
        else
          match ParseInt(line[1..j])
          case None => None
          case Some(id) => Some(Entry(id, line[j + 2..]))
  }

  /** Each context line reads back as the id and text of its chunk, whatever
      the text holds. */
  lemma ContextLineRoundTrip(c: Chunk)
    ensures ParseContextLine(ContextLine(c)) == Some(Entry(c.id, c.text))
  {
    var line := ContextLine(c);
    var n := IntToString(c.id);
    var j := |n| + 1;
    assert line == "[" + n + "] " + c.text;
    assert line[j] == ']' && line[j + 1] == ' ';
    assert ']' !in line[..j] by {
      forall i | 0 <= i < j ensures line[..j][i] != ']' {
        if i > 0 {
          assert line[i] == n[i - 1];
        }
      }
    }
    assert IndexOf(line, ']') == Some(j);
    assert line[1..j] == n;
    assert line[j + 2..] == c.text;
    IntRoundTrip(c.id);
  }

  /** The line of a chunk whose text holds no newline holds none either. */
  lemma ContextLineNoNewline(c: Chunk)
    requires '\n' !in c.text
    ensures '\n' !in ContextLine(c)
  {
    var line := ContextLine(c);
    var n := IntToString(c.id);
    assert line == "[" + n + "] " + c.text;
    forall p | 0 <= p < |line| ensures line[p] != '\n' {
      if p < |n| + 3 {
        if 0 < p <= |n| {
          assert line[p] == n[p - 1];
        }
      } else {
        assert line[p] == c.text[p - |n| - 3];
      }
    }
  }

  /** When no chunk text holds a newline, the context block has one line per
      chunk and each line reads back as the id and text of that chunk. */
  lemma ContextBlockRoundTrip(chunks: seq<Chunk>)
    requires |chunks| > 0
    requires forall i :: 0 <= i < |chunks| ==> '\n' !in chunks[i].text
    ensures var lines := Split(ContextBlock(chunks));
      && |lines| == |chunks|
      && forall i :: 0 <= i < |chunks| ==> ParseContextLine(lines[i]) == Some(Entry(chunks[i].id, chunks[i].text))
  {
    var lines := ContextLines(chunks);
    forall i | 0 <= i < |lines| ensures '\n' !in lines[i] {
      ContextLineNoNewline(chunks[i]);
    }
    SplitJoin(lines);
    forall i | 0 <= i < |chunks|
      ensures ParseContextLine(lines[i]) == Some(Entry(chunks[i].id, chunks[i].text))
    {
      ContextLineRoundTrip(chunks[i]);
    }
  }
}
