/** NamesProviderImpl: names the message class generated for each actor
    method, `<Method>Message` followed by the smallest counter that makes the
    name new, and remembers every name it handed out. Names are kept in a
    TreeSet ordered by NamesComparator (shorter first, then by characters),
    which treats two names as the same exactly when they are equal. */
module NamesProvider {
  import opened Wrappers

  const MESSAGE_SUFFIX: string := "Message"

  predicate IsDigit(c: char)
  {
    '0' <= c <= '9'
  }

  function DigitChar(d: nat): (c: char)
    requires d < 10
    ensures IsDigit(c) && (c as int) - ('0' as int) == d
  {
    (('0' as int) + d) as char
  }

  /** `StringBuilder.append(int)` for a non-negative int: its decimal digits. */
  function Decimal(n: nat): (s: string)
    ensures |s| >= 1
    ensures forall i :: 0 <= i < |s| ==> IsDigit(s[i])
    decreases n
  {
    if n < 10 then [DigitChar(n)] else Decimal(n / 10) + [DigitChar(n % 10)]
  }

  /** Reading decimal digits back as a number. */
  function ParseDecimal(s: string): nat
    requires forall i :: 0 <= i < |s| ==> IsDigit(s[i])
  {
    if s == [] then 0
    else
      assert IsDigit(s[|s| - 1]);
      ParseDecimal(s[..|s| - 1]) * 10 + ((s[|s| - 1] as int) - ('0' as int))
  }

  lemma {:induction false} DecimalReadsBack(n: nat)
    ensures ParseDecimal(Decimal(n)) == n
    decreases n
  {
    var s := Decimal(n);
    if n >= 10 {
      assert s[..|s| - 1] == Decimal(n / 10);
      DecimalReadsBack(n / 10);
    }
  }

  lemma DecimalInjective(a: nat, b: nat)
    requires Decimal(a) == Decimal(b)
    ensures a == b
  {
    DecimalReadsBack(a);
    DecimalReadsBack(b);
  }

  /** `StringUtils.capitalize`: the first character in upper case, the
      rest unchanged. Only ASCII letters are mapped. */
  function Capitalize(s: string): (r: string)
    ensures |r| == |s| && (|s| > 0 ==> r[1..] == s[1..])
    ensures |s| > 0 && 'a' <= s[0] <= 'z' ==> r[0] as int == s[0] as int - 32
    ensures |s| > 0 && !('a' <= s[0] <= 'z') ==> r[0] == s[0]
  {
    if |s| > 0 && 'a' <= s[0] <= 'z' then [(s[0] as int - 32) as char] + s[1..] else s
  }

  /** The name `buildMessageName(method)` tries with counter `index`: no
      counter for 0. */
  function Candidate(methodName: string, index: nat): string
  {
    Capitalize(methodName) + MESSAGE_SUFFIX + (if index == 0 then "" else Decimal(index))
  }

  /** Whether `name` is one of the names tried for the method. */
  ghost predicate IsCandidate(name: string, methodName: string)
  {
    exists index: nat :: name == Candidate(methodName, index)
  }

  lemma CandidateInjective(methodName: string, i: nat, j: nat)
    requires Candidate(methodName, i) == Candidate(methodName, j)
    ensures i == j
  {
    var base := Capitalize(methodName) + MESSAGE_SUFFIX;
    var si := if i == 0 then "" else Decimal(i);
    var sj := if j == 0 then "" else Decimal(j);
    assert Candidate(methodName, i) == base + si;
    assert Candidate(methodName, j) == base + sj;
    assert si == (base + si)[|base|..];
    assert sj == (base + sj)[|base|..];
    if i != 0 && j != 0 {
      DecimalInjective(i, j);
    }
  }

  /** The set of names handed out so far. */
  datatype NamesProvider = NamesProvider(used: set<string>)

  /** `buildMessageName(methodName)`: the first candidate not yet used,
      which is then recorded. The loop ends because the candidates are all
      different and only finitely many names are in use. */
  method BuildMessageName(p: NamesProvider, methodName: string) returns (name: string, p': NamesProvider, ghost index: nat)
    ensures name == Candidate(methodName, index)
    ensures name !in p.used
    ensures forall j :: 0 <= j < index ==> Candidate(methodName, j) in p.used
    ensures p'.used == p.used + {name}
  {
    var base := Capitalize(methodName) + MESSAGE_SUFFIX;
    name := base;
    index := 0;
    var counter := 0;
    ghost var tried: set<string> := {};
    while name in p.used
      invariant counter == index
      invariant name == Candidate(methodName, index)
      invariant forall j :: 0 <= j < index ==> Candidate(methodName, j) in p.used
      invariant tried == set j | 0 <= j < index :: Candidate(methodName, j)
      invariant |tried| == index
      invariant tried <= p.used
      decreases |p.used| - index
    {
      if name in tried {
        var j :| 0 <= j < index && Candidate(methodName, j) == name;
        CandidateInjective(methodName, j, index);
        assert false;
      }
      tried := tried + {name};
      assert |tried| <= |p.used| by { SubsetCard(tried, p.used); }
      counter := counter + 1;
      index := index + 1;
      name := base + Decimal(counter);
    }
    p' := NamesProvider(p.used + {name});
  }

  lemma {:induction false} SubsetCard<T>(a: set<T>, b: set<T>)
    requires a <= b
    ensures |a| <= |b|
    decreases |a|
  {
    if a != {} {
      var x :| x in a;
      SubsetCard(a - {x}, b - {x});
    }
  }

  /** Two calls for the same method give two different names. */
  method NamesNeverRepeat(p: NamesProvider, m1: string, m2: string) returns (n1: string, n2: string, p2: NamesProvider)
    ensures n1 != n2
    ensures p2.used == p.used + {n1, n2}
  {
    var p1: NamesProvider;
    ghost var i1, i2: nat;
    n1, p1, i1 := BuildMessageName(p, m1);
    n2, p2, i2 := BuildMessageName(p1, m2);
  }

  /** NamesComparator: a null sequence has length -1. Different lengths are
      ordered by length; equal lengths by the first differing character. */
  function Compare(left: Option<string>, right: Option<string>): (c: int)
  {
    var ll := if left.None? then -1 else |left.value|;
    var rl := if right.None? then -1 else |right.value|;
    if ll != rl then ll - rl
    else if left.None? || right.None? then 0
    else CompareFrom(left.value, right.value, 0)
  }

  /** The comparison loop from position `i` on. */
  function CompareFrom(l: string, r: string, i: nat): int
    requires |l| == |r| && i <= |l|
    decreases |l| - i
  {
    if i == |l| then 0
    else if l[i] as int - r[i] as int != 0 then l[i] as int - r[i] as int
    else CompareFrom(l, r, i + 1)
  }

  lemma {:induction false} CompareFromZero(l: string, r: string, i: nat)
    requires |l| == |r| && i <= |l|
    ensures CompareFrom(l, r, i) == 0 <==> l[i..] == r[i..]
    ensures CompareFrom(l, r, i) == -CompareFrom(r, l, i)
    decreases |l| - i
  {
    if i < |l| {
      CompareFromZero(l, r, i + 1);
      assert l[i..] == [l[i]] + l[i + 1..];
      assert r[i..] == [r[i]] + r[i + 1..];
    }
  }

  /** The comparator says 0 exactly for equal sequences (null included), so
      TreeSet membership is plain set membership. */
  lemma CompareZeroIffEqual(a: Option<string>, b: Option<string>)
    ensures Compare(a, b) == 0 <==> a == b
  {
    if a.Some? && b.Some? && |a.value| == |b.value| {
      CompareFromZero(a.value, b.value, 0);
      assert a.value[0..] == a.value && b.value[0..] == b.value;
    }
  }

  /** Swapping the arguments flips the sign. */
  lemma CompareAntisymmetric(a: Option<string>, b: Option<string>)
    ensures Compare(a, b) == -Compare(b, a)
  {
    if a.Some? && b.Some? && |a.value| == |b.value| {
      CompareFromZero(a.value, b.value, 0);
    }
  }

  /** Null comes before every sequence; a shorter sequence comes before a
      longer one whatever their characters. */
  lemma ShorterFirst(a: Option<string>, b: string)
    requires a.None? || |a.value| < |b|
    ensures Compare(a, Some(b)) < 0
  {
  }

  /** For equal lengths the first differing character decides. */
  lemma {:induction false} FirstDifferenceDecides(l: string, r: string, k: nat)
    requires |l| == |r| && k < |l| && l[k] != r[k]
    requires forall j :: 0 <= j < k ==> l[j] == r[j]
    ensures Compare(Some(l), Some(r)) == l[k] as int - r[k] as int
  {
    FromPrefix(l, r, 0, k);
  }

  lemma {:induction false} FromPrefix(l: string, r: string, i: nat, k: nat)
    requires |l| == |r| && i <= k < |l| && l[k] != r[k]
    requires forall j :: i <= j < k ==> l[j] == r[j]
    ensures CompareFrom(l, r, i) == l[k] as int - r[k] as int
    decreases k - i
  {
    if i < k {
      FromPrefix(l, r, i + 1, k);
    }
  }

  /** Looking a name up by the comparator finds it iff it is in the set. */
  lemma TreeSetMembership(used: set<string>, name: string)
    ensures (exists u :: u in used && Compare(Some(u), Some(name)) == 0) <==> name in used
  {
    if name in used {
      CompareZeroIffEqual(Some(name), Some(name));
    }
    forall u | u in used && Compare(Some(u), Some(name)) == 0
      ensures u == name
    {
      CompareZeroIffEqual(Some(u), Some(name));
    }
  }
}
