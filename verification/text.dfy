/** Strings as the generator builds and takes them apart: joining pieces
    with a separator, and splitting at every occurrence of a character. */
module Text {
  /** The pieces with `sep` between each two. */
  function Join(parts: seq<string>, sep: string): string
  {
    if parts == [] then ""
    else if |parts| == 1 then parts[0]
    else parts[0] + sep + Join(parts[1..], sep)
  }

  /** Every piece between occurrences of `c`, empty ones included: one more
      piece than there are `c`s. */
  function Split(s: string, c: char): (r: seq<string>)
    ensures |r| >= 1
    ensures forall i :: 0 <= i < |r| ==> c !in r[i]
  {
    if s == [] then [""]
    else
      var rest := Split(s[1..], c);
      if s[0] == c then [""] + rest else [[s[0]] + rest[0]] + rest[1..]
  }

  /** Splitting loses nothing: the pieces join back to the string. */
  lemma {:induction false} SplitJoins(s: string, c: char)
    ensures Join(Split(s, c), [c]) == s
  {
    if s != [] {
      var rest := Split(s[1..], c);
      SplitJoins(s[1..], c);
      if s[0] == c {
        assert s == [s[0]] + s[1..];
      } else {
        var r := Split(s, c);
        assert r[1..] == rest[1..];
        if |rest| == 1 {
          assert s == [s[0]] + rest[0];
        } else {
          assert Join(rest, [c]) == rest[0] + [c] + Join(rest[1..], [c]);
          assert s == [s[0]] + s[1..];
        }
      }
    }
  }

  lemma TailFree(s: string, c: char)
    requires c !in s && s != []
    ensures c !in s[1..]
  {
    forall i | 0 <= i < |s[1..]| ensures s[1..][i] != c { assert s[1..][i] == s[i + 1]; }
  }

  /** A string without `c` is one piece. */
  lemma {:induction false} SplitFree(s: string, c: char)
    requires c !in s
    ensures Split(s, c) == [s]
  {
    if s != [] {
      TailFree(s, c);
      SplitFree(s[1..], c);
      assert s == [s[0]] + s[1..];
    }
  }

  /** A `c`-free prefix before a `c` is the first piece. */
  lemma {:induction false} SplitPrefix(n: string, c: char, t: string)
    requires c !in n
    ensures Split(n + [c] + t, c) == [n] + Split(t, c)
  {
    if n == [] {
      assert n + [c] + t == [c] + t;
      assert ([c] + t)[1..] == t;
    } else {
      TailFree(n, c);
      SplitPrefix(n[1..], c, t);
      assert (n + [c] + t)[1..] == n[1..] + [c] + t;
      assert n == [n[0]] + n[1..];
    }
  }

  /** Splitting undoes joining with `c` when no piece holds a `c`. */
  lemma {:induction false} JoinSplits(parts: seq<string>, c: char)
    requires |parts| >= 1
    requires forall i :: 0 <= i < |parts| ==> c !in parts[i]
    ensures Split(Join(parts, [c]), c) == parts
  {
    if |parts| == 1 {
      SplitFree(parts[0], c);
    } else {
      JoinSplits(parts[1..], c);
      SplitPrefix(parts[0], c, Join(parts[1..], [c]));
      assert parts == [parts[0]] + parts[1..];
    }
  }

  /** Each piece with `prefix` in front. */
  function Prefixed(prefix: string, parts: seq<string>): (r: seq<string>)
    ensures |r| == |parts|
    ensures forall i :: 0 <= i < |parts| ==> r[i] == prefix + parts[i]
  {
    if parts == [] then [] else [prefix + parts[0]] + Prefixed(prefix, parts[1..])
  }

  /** Joining with a separator `c + t` is joining with `c` after putting `t`
      in front of every piece but the first. */
  lemma {:induction false} JoinLongSeparator(parts: seq<string>, sep: string, c: char, t: string)
    requires |parts| >= 1 && sep == [c] + t
    ensures Join(parts, sep) == Join([parts[0]] + Prefixed(t, parts[1..]), [c])
  {
    if |parts| > 1 {
      JoinLongSeparator(parts[1..], sep, c, t);
      var rest := Prefixed(t, parts[1..]);
      assert rest == [t + parts[1]] + Prefixed(t, parts[2..]);
      assert parts[1..][1..] == parts[2..];
      assert Join(parts[1..], sep) == Join([parts[1]] + Prefixed(t, parts[2..]), [c]);
      var q := [parts[0]] + rest;
      assert q[1..] == rest;
      assert Join(q, [c]) == parts[0] + [c] + Join(rest, [c]);
      JoinPrefixedHead(parts[1], t, Prefixed(t, parts[2..]), c);
    }
  }

  lemma JoinPrefixedHead(first: string, t: string, rest: seq<string>, c: char)
    ensures Join([t + first] + rest, [c]) == t + Join([first] + rest, [c])
  {
    var a := [t + first] + rest;
    var b := [first] + rest;
    assert a[1..] == rest && b[1..] == rest;
  }

  /** Joining one more piece appends the separator and the piece. */
  lemma {:induction false} JoinAppend(parts: seq<string>, x: string, sep: string)
    requires |parts| >= 1
    ensures Join(parts + [x], sep) == Join(parts, sep) + sep + x
  {
    if |parts| == 1 {
      assert parts + [x] == [parts[0], x];
      assert [parts[0], x][1..] == [x];
    } else {
      JoinAppend(parts[1..], x, sep);
      assert (parts + [x])[1..] == parts[1..] + [x];
    }
  }

  /** Each piece without its first `k` characters (when it has them). */
  function Unprefixed(k: nat, parts: seq<string>): (r: seq<string>)
    ensures |r| == |parts|
  {
    if parts == [] then []
    else [if |parts[0]| >= k then parts[0][k..] else parts[0]] + Unprefixed(k, parts[1..])
  }

  lemma {:induction false} UnprefixedPrefixed(t: string, parts: seq<string>)
    ensures Unprefixed(|t|, Prefixed(t, parts)) == parts
  {
    if parts != [] {
      UnprefixedPrefixed(t, parts[1..]);
      assert Prefixed(t, parts)[1..] == Prefixed(t, parts[1..]);
      assert (t + parts[0])[|t|..] == parts[0];
    }
  }

  /** Reads back a list written `x1, x2, ..., xn`: split at the commas and
      drop the space after each. */
  function ReadList(s: string): (r: seq<string>)
    ensures |r| >= 1
  {
    var pieces := Split(s, ',');
    [pieces[0]] + Unprefixed(1, pieces[1..])
  }

  /** Pieces without commas are read back from their comma-space list. */
  lemma ReadListJoin(parts: seq<string>)
    requires |parts| >= 1
    requires forall i :: 0 <= i < |parts| ==> ',' !in parts[i]
    ensures ReadList(Join(parts, ", ")) == parts
  {
    var q := [parts[0]] + Prefixed(" ", parts[1..]);
    CommaSpaceJoin(parts);
    SpacedFree(parts);
    JoinSplits(q, ',');
    assert q[1..] == Prefixed(" ", parts[1..]);
    UnprefixedPrefixed(" ", parts[1..]);
    assert parts == [parts[0]] + parts[1..];
  }

  lemma CommaSpaceJoin(parts: seq<string>)
    requires |parts| >= 1
    ensures Join(parts, ", ") == Join([parts[0]] + Prefixed(" ", parts[1..]), [','])
  {
    CommaSpace();
    JoinLongSeparator(parts, ", ", ',', " ");
  }

  lemma CommaSpace()
    ensures ", " == [','] + " "
  {
  }

  lemma SpacedFree(parts: seq<string>)
    requires |parts| >= 1
    requires forall i :: 0 <= i < |parts| ==> ',' !in parts[i]
    ensures var q := [parts[0]] + Prefixed(" ", parts[1..]);
      forall i :: 0 <= i < |q| ==> ',' !in q[i]
  {
    var q := [parts[0]] + Prefixed(" ", parts[1..]);
    forall i | 0 <= i < |q|
      ensures ',' !in q[i]
    {
      if i > 0 {
        assert q[i] == " " + parts[i];
      }
    }
  }
}
