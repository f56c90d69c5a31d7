/** What the parsers and evaluators read, once the text is split into integer tokens, and the
    Python list indexing they do on it. */
module Text {
  import opened Wrappers

  /** One line of an output file: the integers it splits into, or Garbled when some token is
      not an integer (int() raises ValueError on it). */
  datatype Line = Ints(xs: seq<int>) | Garbled

  /** The i-th line of a file already split into integer rows; reading past the end gives an
      empty line, as readline() does. */
  function Row<T>(rows: seq<seq<T>>, i: nat): (r: seq<T>)
    ensures i >= |rows| ==> r == []
  {
    if i < |rows| then rows[i] else []
  }

  /** `count` consecutive lines starting at line `start` (none when count <= 0). */
  function Block(rows: seq<seq<int>>, start: nat, count: int): (r: seq<seq<int>>)
    ensures |r| == (if count < 0 then 0 else count)
    ensures forall j :: 0 <= j < |r| ==> r[j] == Row(rows, start + j)
  {
    if count <= 0 then [] else seq(count, j requires 0 <= j < count => Row(rows, start + j))
  }

  /** m[i][j], or the IndexError Python raises when a row or a column is missing. */
  function At(m: seq<seq<int>>, i: nat, j: nat): (r: Run<int>)
    ensures r.Ok? <==> i < |m| && j < |m[i]|
    ensures r.Ok? ==> r.value == m[i][j]
    ensures r.Raised? ==> r.error == IndexError
  {
    if i < |m| && j < |m[i]| then Ok(m[i][j]) else Raised(IndexError)
  }

  /** The output lines that are a single integer, in order, as int(line.strip()) reads them;
      every other line is skipped. */
  function Parsed(lines: seq<Line>): (r: seq<int>)
    ensures |r| <= |lines|
    decreases |lines|
  {
    if lines == [] then []
    else
      var l := lines[|lines| - 1];
      Parsed(lines[..|lines| - 1]) + (if l.Ints? && |l.xs| == 1 then [l.xs[0]] else [])
  }

  /** Parsing more lines only extends what was parsed. */
  lemma {:induction false} ParsedPrefix(lines: seq<Line>, k: nat)
    requires k <= |lines|
    ensures Parsed(lines[..k]) <= Parsed(lines)
    decreases |lines|
  {
    if k < |lines| {
      var p := lines[..|lines| - 1];
      assert p[..k] == lines[..k];
      ParsedPrefix(p, k);
    } else {
      assert lines[..k] == lines;
    }
  }

  /** a + b, where the first exception raised wins. */
  function Plus(a: Run<int>, b: Run<int>): Run<int>
  {
    if a.Raised? then a else if b.Raised? then b else Ok(a.value + b.value)
  }
}
