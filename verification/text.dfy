/** Small string utilities shared by the serialiser and its decoder. */
module Text {

  /** No character of `s` is in `cs`. */
  predicate Avoids(s: string, cs: set<char>) {
    forall c | c in s :: c !in cs
  }

  predicate StartsWith(s: string, prefix: string) {
    |prefix| <= |s| && s[..|prefix|] == prefix
  }

  lemma NotStartsWith(s: string, prefix: string)
    requires prefix != [] && s != [] && s[0] != prefix[0]
    ensures !StartsWith(s, prefix)
  {
    assert |prefix| <= |s| ==> s[..|prefix|][0] == s[0];
  }

  /** Cuts `s` before its first character in `stop`: the part before it, and the rest,
      which is empty or starts with that character. */
  function Split(s: string, stop: set<char>): (r: (string, string))
    ensures r.0 + r.1 == s
    ensures Avoids(r.0, stop)
    ensures r.1 == [] || r.1[0] in stop
    decreases |s|
  {
    if s == [] then ([], [])
    else if s[0] in stop then ([], s)
    else
      var (front, rest) := Split(s[1..], stop);
      assert ([s[0]] + front) + rest == [s[0]] + (front + rest);
      ([s[0]] + front, rest)
  }

  /** The cut is where the first stop character is: any prefix free of stop characters
      followed by a stop character (or by nothing) is what Split returns. */
  lemma {:induction false} SplitAt(front: string, rest: string, stop: set<char>)
    requires Avoids(front, stop)
    requires rest == [] || rest[0] in stop
    ensures Split(front + rest, stop) == (front, rest)
  {
    if front == [] {
      assert front + rest == rest;
    } else {
      assert (front + rest)[0] == front[0];
      assert (front + rest)[1..] == front[1..] + rest;
      SplitAt(front[1..], rest, stop);
      assert [front[0]] + front[1..] == front;
    }
  }

  /** Each line followed by a newline, as a run of writes of `line + "\n"` produces. */
  function Unlines(lines: seq<string>): string {
    if lines == [] then [] else lines[0] + "\n" + Unlines(lines[1..])
  }

  /** The newline-separated lines of `s`; a last line without a newline is kept. */
  function Lines(s: string): seq<string>
    decreases |s|
  {
    if s == [] then []
    else
      var (line, rest) := Split(s, {'\n'});
      if rest == [] then [line] else [line] + Lines(rest[1..])
  }

  lemma {:induction false} UnlinesAppend(a: seq<string>, b: seq<string>)
    ensures Unlines(a + b) == Unlines(a) + Unlines(b)
  {
    if a != [] {
      assert (a + b)[1..] == a[1..] + b;
      UnlinesAppend(a[1..], b);
    } else {
      assert a + b == b;
    }
  }

  /** Two leading lines, each with its newline. */
  lemma UnlinesTwo(a: string, b: string, rest: seq<string>)
    ensures Unlines([a, b] + rest) == a + "\n" + b + "\n" + Unlines(rest)
  {
    assert ([a, b] + rest)[1..] == [b] + rest;
    assert ([b] + rest)[1..] == rest;
  }

  /** No line holds a newline. */
  predicate NoBreaks(lines: seq<string>) {
    forall i :: 0 <= i < |lines| ==> Avoids(lines[i], {'\n'})
  }

  lemma NoBreaksAppend(a: seq<string>, b: seq<string>)
    requires NoBreaks(a) && NoBreaks(b)
    ensures NoBreaks(a + b)
  {
    forall i | 0 <= i < |a + b| ensures Avoids((a + b)[i], {'\n'}) {
      if i >= |a| { assert (a + b)[i] == b[i - |a|]; }
    }
  }

  /** Splitting what Unlines wrote gives the lines back, provided none holds a newline. */
  lemma {:induction false} LinesOfUnlines(lines: seq<string>)
    requires NoBreaks(lines)
    ensures Lines(Unlines(lines)) == lines
  {
    if lines != [] {
      var tail := "\n" + Unlines(lines[1..]);
      assert Unlines(lines) == lines[0] + tail;
      SplitAt(lines[0], tail, {'\n'});
      assert tail[1..] == Unlines(lines[1..]);
      LinesOfUnlines(lines[1..]);
      assert [lines[0]] + lines[1..] == lines;
    }
  }

  /** Go's strings.Join. */
  function Join(parts: seq<string>, sep: string): (r: string)
    ensures parts == [] ==> r == []
    ensures |parts| == 1 ==> r == parts[0]
  {
    if parts == [] then []
    else if |parts| == 1 then parts[0]
    else parts[0] + sep + Join(parts[1..], sep)
  }
}
