// A katana blueprint is a list of text lines. The first four lines draw the
// handle (the fourth of them is the separator between handle and blade);
// every line after them is one line of the blade, whose width is the number
// of '#' characters it holds.

module Blueprint {

  /** Number of lines that make up the handle. */
  const HandleHeight: nat := 4

  /** Number of '#' characters in a line, as `line.count('#')`. */
  function CountHash(line: string): (n: nat)
    ensures n <= |line|
    ensures n == 0 <==> '#' !in line
  {
    if line == [] then 0
    else
      assert line == [line[0]] + line[1..];
      (if line[0] == '#' then 1 else 0) + CountHash(line[1..])
  }

  /** Counting distributes over concatenation of two pieces of a line. */
  lemma {:induction false} CountHashConcat(a: string, b: string)
    ensures CountHash(a + b) == CountHash(a) + CountHash(b)
  {
    if a == [] {
      assert a + b == b;
    } else {
      assert (a + b)[0] == a[0];
      assert (a + b)[1..] == a[1..] + b;
      CountHashConcat(a[1..], b);
    }
  }

  /** The string `'#' * n`: empty when n is zero or negative. */
  function Hashes(n: int): (s: string)
    ensures |s| == if n <= 0 then 0 else n
    ensures forall j :: 0 <= j < |s| ==> s[j] == '#'
    ensures CountHash(s) == |s|
    decreases n
  {
    if n <= 0 then []
    else
      var rest := Hashes(n - 1);
      assert (['#'] + rest)[1..] == rest;
      ['#'] + rest
  }

  /** The handle, `lines[:4]`: the first four lines, or all of them when
      there are fewer. */
  function Handle(lines: seq<string>): (h: seq<string>)
    ensures |h| == if |lines| < HandleHeight then |lines| else HandleHeight
    ensures h <= lines
  {
    if |lines| < HandleHeight then lines else lines[..HandleHeight]
  }

  /** The blade, `lines[4:]`: every line after the handle, empty when the
      blueprint has no more than four lines. */
  function Blade(lines: seq<string>): (b: seq<string>)
    ensures |b| == if |lines| <= HandleHeight then 0 else |lines| - HandleHeight
    ensures forall k :: 0 <= k < |b| ==> b[k] == lines[HandleHeight + k]
  {
    if |lines| <= HandleHeight then [] else lines[HandleHeight..]
  }

  /** Handle and blade split a blueprint without losing or repeating a line. */
  lemma HandleBladeSplit(lines: seq<string>)
    ensures Handle(lines) + Blade(lines) == lines
  {
    if |lines| > HandleHeight {
      assert lines == lines[..HandleHeight] + lines[HandleHeight..];
    }
  }

  /** Two blueprints that agree from line four on have the same blade,
      whatever their handles hold. */
  lemma BladeIgnoresHandle(a: seq<string>, b: seq<string>)
    requires |a| == |b|
    requires forall k :: HandleHeight <= k < |a| ==> a[k] == b[k]
    ensures Blade(a) == Blade(b)
  {
    var x, y := Blade(a), Blade(b);
    assert |x| == |y|;
    forall k | 0 <= k < |x| ensures x[k] == y[k] {
      assert x[k] == a[HandleHeight + k];
    }
  }
}
