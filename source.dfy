/** The builder of the generated PHP text (src/Compiler/Source.php): a
    `php://temp` buffer with a write position, and an indentation level. A
    write overwrites the buffer from the position on, so text that `revert`
    stepped back over stays in the buffer until it is written over. Line
    ends are "\n" (PHP_EOL on the platforms the generated code runs on). */
module SourceText {
  import opened Exceptions
  import opened Text

  const EOL: string := "\n"

  /** The buffer after writing `s` at position `p`, one character at a
      time as the stream takes it: each overwrites the character under the
      position, or extends the buffer at its end. */
  function Overwrite(buf: string, p: nat, s: string): (r: string)
    requires p <= |buf|
    ensures |r| == if p + |s| <= |buf| then |buf| else p + |s|
    decreases |s|
  {
    if s == [] then buf else Overwrite(Put(buf, p, s[0]), p + 1, s[1..])
  }

  /** One character written at position `p`. */
  function Put(buf: string, p: nat, c: char): (r: string)
    requires p <= |buf|
    ensures |r| == if p < |buf| then |buf| else p + 1
  {
    if p < |buf| then buf[p := c] else buf + [c]
  }

  /** Character by character: the written run reads back as `s`, and every
      other position keeps the old buffer's character. */
  lemma {:induction false} OverwriteAt(buf: string, p: nat, s: string, i: nat)
    requires p <= |buf| && i < |Overwrite(buf, p, s)|
    ensures Overwrite(buf, p, s)[i] == if p <= i < p + |s| then s[i - p] else buf[i]
    decreases |s|
  {
    if s != [] {
      OverwriteAt(Put(buf, p, s[0]), p + 1, s[1..], i);
    }
  }

  /** What a write leaves: the bytes before `p`, then `s`, then whatever of
      the old buffer lies beyond. */
  lemma OverwriteParts(buf: string, p: nat, s: string)
    requires p <= |buf|
    ensures Overwrite(buf, p, s)[..p] == buf[..p]
    ensures Overwrite(buf, p, s)[p..p + |s|] == s
    ensures p + |s| <= |buf| ==> Overwrite(buf, p, s)[p + |s|..] == buf[p + |s|..]
  {
    var r := Overwrite(buf, p, s);
    var e := p + |s|;
    forall i | 0 <= i < p
      ensures r[..p][i] == buf[..p][i]
    {
      OverwriteAt(buf, p, s, i);
    }
    forall i | 0 <= i < |s|
      ensures r[p..e][i] == s[i]
    {
      OverwriteAt(buf, p, s, p + i);
    }
    if e <= |buf| {
      forall i | 0 <= i < |buf| - e
        ensures r[e..][i] == buf[e..][i]
      {
        OverwriteAt(buf, p, s, e + i);
      }
    }
  }

  /** Writing at the end of the buffer appends. */
  lemma {:induction false} OverwriteAtEnd(buf: string, s: string)
    ensures Overwrite(buf, |buf|, s) == buf + s
    decreases |s|
  {
    if s != [] {
      OverwriteAtEnd(buf + [s[0]], s[1..]);
      assert buf + [s[0]] + s[1..] == buf + s;
    }
  }

  /** Two writes in a row are one write of both strings. */
  lemma {:induction false} OverwriteTwice(buf: string, p: nat, a: string, b: string)
    requires p <= |buf|
    ensures p + |a| <= |Overwrite(buf, p, a)|
    ensures Overwrite(Overwrite(buf, p, a), p + |a|, b) == Overwrite(buf, p, a + b)
    decreases |a|
  {
    if a != [] {
      assert (a + b)[0] == a[0] && (a + b)[1..] == a[1..] + b;
      OverwriteTwice(Put(buf, p, a[0]), p + 1, a[1..], b);
    } else {
      assert a + b == b;
    }
  }

  /** The text `write(...$strings)` puts out: a bare line end for no
      arguments, else the indentation (four spaces per level), the
      arguments concatenated, and a line end. */
  function Line(indentation: nat, strings: seq<string>): string
    decreases indentation
  {
    if |strings| == 0 then EOL
    else if indentation == 0 then Concat(strings) + EOL
    else "    " + Line(indentation - 1, strings)
  }

  /** Every line ends with a line end. */
  lemma {:induction false} LineEnds(indentation: nat, strings: seq<string>)
    ensures |Line(indentation, strings)| >= 1
    ensures Line(indentation, strings)[|Line(indentation, strings)| - 1] == '\n'
    decreases indentation
  {
    if |strings| > 0 && indentation > 0 {
      LineEnds(indentation - 1, strings);
    }
  }

  /** The indentation of a line is `str_repeat(' ', indentation * 4)`. */
  lemma {:induction false} LineIndented(indentation: nat, strings: seq<string>)
    requires |strings| > 0
    ensures Line(indentation, strings) == Repeat(' ', 4 * indentation) + Concat(strings) + EOL
    decreases indentation
  {
    if indentation > 0 {
      LineIndented(indentation - 1, strings);
      var n := 4 * (indentation - 1);
      assert Repeat(' ', n + 4) == "    " + Repeat(' ', n);
    }
  }

  /** The text of several writes at one indentation, in order. */
  function Lines(indentation: nat, lines: seq<seq<string>>): string {
    if lines == [] then "" else Lines(indentation, lines[..|lines| - 1]) + Line(indentation, lines[|lines| - 1])
  }

  /** One more write extends the text written so far by one line. */
  lemma WriteStep(b0: string, p0: nat, ind: nat, lines: seq<seq<string>>, i: nat)
    requires p0 <= |b0| && i < |lines|
    ensures p0 + |Lines(ind, lines[..i])| <= |Overwrite(b0, p0, Lines(ind, lines[..i]))|
    ensures Overwrite(Overwrite(b0, p0, Lines(ind, lines[..i])), p0 + |Lines(ind, lines[..i])|, Line(ind, lines[i]))
            == Overwrite(b0, p0, Lines(ind, lines[..i + 1]))
    ensures |Lines(ind, lines[..i + 1])| == |Lines(ind, lines[..i])| + |Line(ind, lines[i])|
  {
    var done := lines[..i];
    var next := lines[..i + 1];
    assert next[..|next| - 1] == done;
    assert Lines(ind, next) == Lines(ind, done) + Line(ind, lines[i]);
    OverwriteTwice(b0, p0, Lines(ind, done), Line(ind, lines[i]));
  }

  /** The position of the last line end strictly before `hi`, if any. */
  function LastNewline(buf: string, hi: nat): (q: Option<nat>)
    requires hi <= |buf|
    ensures q.Some? ==> q.value < hi && buf[q.value] == '\n'
    ensures q.Some? ==> forall k :: q.value < k < hi ==> buf[k] != '\n'
    ensures q.None? ==> forall k :: 0 <= k < hi ==> buf[k] != '\n'
  {
    if hi == 0 then None
    else if buf[hi - 1] == '\n' then Some(hi - 1)
    else LastNewline(buf, hi - 1)
  }

  /** Where `revert` leaves the write position: just after the last line
      end before the final character, found by stepping back two and
      reading one. When there is none, the seek goes below offset 0, which
      fails and leaves the stream at its end, and the loop never ends. */
  function RevertTo(buf: string, p: nat): (r: Result<nat>)
    requires p <= |buf|
  {
    if p >= 2 then
      match LastNewline(buf, p - 1)
      case Some(q) => Ok(q + 1)
      case None => Err(Diverges)
    else Err(Diverges)
  }

  /** The last line end before `hi` is the one after which no other comes. */
  lemma LastNewlineAt(buf: string, hi: nat, q: nat)
    requires q < hi <= |buf| && buf[q] == '\n'
    requires forall k :: q < k < hi ==> buf[k] != '\n'
    ensures LastNewline(buf, hi) == Some(q)
  {
  }

  /** Reverting right after a string was written over a buffer that ended
      with a complete line, where the string's only line end is its last
      character, moves the position back to where the string began. */
  lemma RevertUndoesLine(buf: string, p: nat, line: string)
    requires 1 <= p <= |buf| && buf[p - 1] == '\n'
    requires line != [] && line[|line| - 1] == '\n'
    requires forall k :: 0 <= k < |line| - 1 ==> line[k] != '\n'
    ensures RevertTo(Overwrite(buf, p, line), p + |line|) == Ok(p)
  {
    var nb := Overwrite(buf, p, line);
    var q := p + |line|;
    var last := p - 1;
    OverwriteAt(buf, p, line, last);
    forall k | p <= k < q - 1
      ensures nb[k] != '\n'
    {
      OverwriteAt(buf, p, line, k);
    }
    LastNewlineAt(nb, q - 1, last);
  }

  /** Reverting right after a line was written over a buffer that ended
      with a complete line moves the position back to where that line
      began: revert undoes one write. */
  lemma RevertUndoesWrite(buf: string, p: nat, ind: nat, strings: seq<string>)
    requires 1 <= p <= |buf| && buf[p - 1] == '\n'
    requires forall k :: 0 <= k < |Line(ind, strings)| - 1 ==> Line(ind, strings)[k] != '\n'
    ensures RevertTo(Overwrite(buf, p, Line(ind, strings)), p + |Line(ind, strings)|) == Ok(p)
  {
    LineEnds(ind, strings);
    RevertUndoesLine(buf, p, Line(ind, strings));
  }

  class Source {
    /** the contents of the temporary stream */
    var buffer: string
    /** the stream position, where the next write goes */
    var pos: nat
    var indentation: nat

    ghost predicate Valid()
      reads this
    {
      pos <= |buffer|
    }

    /** The position is at the end of the buffer, as it is whenever nothing
        was reverted since the last write: writes then append. */
    ghost predicate AtEnd()
      reads this
    {
      pos == |buffer|
    }

    constructor()
      ensures Valid() && buffer == [] && pos == 0 && indentation == 0
    {
      buffer := [];
      pos := 0;
      indentation := 0;
    }

    /** Source::read: all of the buffer; it leaves the position at the end. */
    method Read() returns (s: string)
      requires Valid()
      modifies this
      ensures Valid() && s == buffer && buffer == old(buffer) && pos == |buffer|
      ensures indentation == old(indentation)
    {
      s := buffer;
      pos := |buffer|;
    }

    /** Source::raw */
    method Raw(s: string)
      requires Valid()
      modifies this
      ensures Valid() && buffer == Overwrite(old(buffer), old(pos), s) && pos == old(pos) + |s|
      ensures indentation == old(indentation)
      ensures old(AtEnd()) ==> AtEnd() && buffer == old(buffer) + s
    {
      OverwriteAtEnd(buffer, s);
      buffer := Overwrite(buffer, pos, s);
      pos := pos + |s|;
    }

    /** Source::write */
    method Write(strings: seq<string>)
      requires Valid()
      modifies this
      ensures Valid() && buffer == Overwrite(old(buffer), old(pos), Line(old(indentation), strings))
      ensures pos == old(pos) + |Line(old(indentation), strings)| && indentation == old(indentation)
      ensures old(AtEnd()) ==> AtEnd() && buffer == old(buffer) + Line(old(indentation), strings)
    {
      OverwriteAtEnd(buffer, Line(indentation, strings));
      if |strings| == 0 {
        Raw(EOL);
        assert Line(old(indentation), strings) == EOL;
        return;
      }
      var content := Concat(strings) + EOL;
      Raw(Repeat(' ', 4 * indentation));
      Raw(content);
      LineIndented(indentation, strings);
      assert Repeat(' ', 4 * indentation) + content == Line(indentation, strings);
      OverwriteTwice(old(buffer), old(pos), Repeat(' ', 4 * indentation), content);
    }

    /** `write` once per entry of `lines`, in order. */
    method WriteEach(lines: seq<seq<string>>)
      requires Valid()
      modifies this
      ensures Valid() && indentation == old(indentation)
      ensures buffer == Overwrite(old(buffer), old(pos), Lines(old(indentation), lines))
      ensures pos == old(pos) + |Lines(old(indentation), lines)|
      ensures old(AtEnd()) ==> AtEnd() && buffer == old(buffer) + Lines(old(indentation), lines)
    {
      ghost var b0, p0, ind := buffer, pos, indentation;
      var i := 0;
      while i < |lines|
        invariant 0 <= i <= |lines| && Valid() && indentation == ind && p0 <= |b0|
        invariant buffer == Overwrite(b0, p0, Lines(ind, lines[..i]))
        invariant pos == p0 + |Lines(ind, lines[..i])|
      {
        WriteStep(b0, p0, ind, lines, i);
        Write(lines[i]);
        i := i + 1;
      }
      ghost var all := Lines(ind, lines);
      assert lines[..i] == lines;
      assert buffer == Overwrite(b0, p0, all) && pos == p0 + |all|;
      OverwriteAtEnd(b0, all);
    }

    /** Source::indent */
    method Indent(step: nat)
      modifies this
      ensures indentation == old(indentation) + step
      ensures buffer == old(buffer) && pos == old(pos)
    {
      indentation := indentation + step;
    }

    /** Source::outdent: refuses to go below zero. */
    method Outdent(step: nat) returns (r: Result<()>)
      modifies this
      ensures r.Ok? <==> step <= old(indentation)
      ensures r.Ok? ==> indentation == old(indentation) - step
      ensures r.Err? ==> r.error == LogicException("Step is larger than the current indentation level.")
                         && indentation == old(indentation)
      ensures buffer == old(buffer) && pos == old(pos)
    {
      if indentation < step {
        return Err(LogicException("Step is larger than the current indentation level."));
      }
      indentation := indentation - step;
      r := Ok(());
    }

    /** Source::revert: the seek-back loop, stepping from the position two
        back and one forward until it has read a line end. */
    method Revert() returns (r: Result<()>)
      requires Valid()
      modifies this
      ensures Valid() && buffer == old(buffer) && indentation == old(indentation)
      ensures RevertTo(old(buffer), old(pos)).Ok? ==> r == Ok(()) && pos == RevertTo(old(buffer), old(pos)).value
      ensures RevertTo(old(buffer), old(pos)).Err? ==> r == Err(Diverges)
    {
      ghost var p0 := pos;
      var found := false;
      while !found
        invariant Valid() && buffer == old(buffer) && indentation == old(indentation) && pos <= p0
        invariant !found ==> forall k: int :: 0 <= k && pos <= k + 1 && k + 2 <= p0 ==> buffer[k] != '\n'
        invariant !found ==> pos == p0 || pos >= 1
        invariant found ==> RevertTo(buffer, p0) == Ok(pos)
        decreases if found then 0 else pos + 1
      {
        if pos < 2 {
          if p0 >= 2 {
            assert LastNewline(buffer, p0 - 1).None?;
          }
          return Err(Diverges);
        }
        pos := pos - 2;
        var ch := buffer[pos];
        pos := pos + 1;
        if ch == '\n' {
          found := true;
          assert LastNewline(buffer, p0 - 1) == Some(pos - 1);
        }
      }
      r := Ok(());
    }
  }
}
