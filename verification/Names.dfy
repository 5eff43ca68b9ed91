/** Domain names: normalisation and the walk over a name's parent domains. */
module Names {

  function LowerChar(c: char): char {
    if 'A' <= c <= 'Z' then (c as int + 32) as char else c
  }

  function Lower(s: string): string {
    seq(|s|, i requires 0 <= i < |s| => LowerChar(s[i]))
  }

  function TrimDot(s: string): string {
    if s != "" && s[|s| - 1] == '.' then s[..|s| - 1] else s
  }

  function Normalize(domain: string): string {
    Lower(TrimDot(domain))
  }

  // ----- What normalising does -----

  /** The same character, or the two cases of one ASCII letter. */
  predicate SameLetter(a: char, b: char) {
    || a == b
    || ('A' <= a <= 'Z' && b as int == a as int + 32)
    || ('A' <= b <= 'Z' && a as int == b as int + 32)
  }

  /** The same name, up to the case of its letters. */
  predicate SameUpToCase(x: string, y: string) {
    |x| == |y| && forall i :: 0 <= i < |x| ==> SameLetter(x[i], y[i])
  }

  ghost predicate NoCapitals(x: string) {
    forall i :: 0 <= i < |x| ==> !('A' <= x[i] <= 'Z')
  }

  /** Lower-casing forgets the case of letters and nothing else. */
  lemma LowerForgetsCase(x: string, y: string)
    ensures Lower(x) == Lower(y) <==> SameUpToCase(x, y)
  {
    if Lower(x) == Lower(y) {
      assert |x| == |Lower(x)| && |y| == |Lower(y)|;
      forall i | 0 <= i < |x|
        ensures SameLetter(x[i], y[i])
      {
        assert Lower(x)[i] == Lower(y)[i];
      }
    }
  }

  /** What comes out has no capitals and is the name itself, up to case; a name without capitals
      is kept. */
  lemma LowerMeans(x: string)
    ensures SameUpToCase(x, Lower(x)) && NoCapitals(Lower(x))
    ensures NoCapitals(x) ==> Lower(x) == x
  {
  }

  /** Names that differ in case, or in one final dot, are treated alike by every set of names. */
  lemma CaseDoesNotMatter(names: set<string>, x: string, y: string)
    requires SameUpToCase(x, y)
    ensures Normalize(x) == Normalize(y)
    ensures Matches(names, Normalize(x)) <==> Matches(names, Normalize(y))
    ensures !EndsInDot(x) ==> Normalize(x + ".") == Normalize(y)
  {
    assert EndsInDot(x) <==> EndsInDot(y);
    LowerForgetsCase(TrimDot(x), TrimDot(y));
    assert TrimDot(x + ".") == x;
  }

  ghost predicate EndsInDot(x: string) {
    x != "" && x[|x| - 1] == '.'
  }

  /** A normal form has no capitals and is the name without its final dot, up to case. */
  lemma NormalizeMeans(x: string)
    ensures NoCapitals(Normalize(x))
    ensures SameUpToCase(Normalize(x), if EndsInDot(x) then x[..|x| - 1] else x)
    ensures NoCapitals(x) ==> Normalize(x) == if EndsInDot(x) then x[..|x| - 1] else x
  {
    LowerMeans(TrimDot(x));
  }

  /** Normalising a second time changes nothing exactly unless the name ends in two dots. */
  lemma NormalizeTwice(x: string)
    ensures Normalize(Normalize(x)) == Normalize(x) <==> !(|x| >= 2 && x[|x| - 2] == x[|x| - 1] == '.')
  {
    var n := Normalize(x);
    NormalizeMeans(x);
    NormalizeMeans(n);
    assert n != "" ==> (n[|n| - 1] == '.' <==> TrimDot(x)[|n| - 1] == '.');
    if EndsInDot(n) {
      assert |Normalize(n)| == |n| - 1;
    }
  }

  // ----- Parent domains -----

  /** A position where a label of the name starts. */
  ghost predicate LabelStart(d: string, i: int) {
    0 <= i <= |d| && (i == 0 || d[i - 1] == '.')
  }

  /** Some parent of `d`, or `d` itself, is one of the names. */
  ghost predicate Matches(names: set<string>, d: string) {
    exists i :: LabelStart(d, i) && d[i..] in names
  }

  /** A match is the name itself, or what follows a dot in it. */
  lemma MatchesMeans(names: set<string>, d: string)
    ensures Matches(names, d) <==> d in names || exists i :: 0 <= i < |d| && d[i] == '.' && d[i + 1..] in names
  {
    if Matches(names, d) {
      var i :| LabelStart(d, i) && d[i..] in names;
      if i == 0 {
        assert d[0..] == d;
      } else {
        assert d[i - 1] == '.' && d[i - 1 + 1..] in names;
      }
    }
    if d in names {
      assert LabelStart(d, 0) && d[0..] == d;
    }
    if i :| 0 <= i < |d| && d[i] == '.' && d[i + 1..] in names {
      assert LabelStart(d, i + 1);
    }
  }

  method IndexByte(s: string, c: char) returns (at: int)
    ensures at < 0 ==> c !in s
    ensures 0 <= at ==> at < |s| && s[at] == c && c !in s[..at]
  {
    for i := 0 to |s|
      invariant c !in s[..i]
    {
      if s[i] == c {
        return i;
      }
      assert s[..i + 1] == s[..i] + [s[i]];
    }
    assert s[..|s|] == s;
    at := -1;
  }

  /** No label starts within a stretch without dots. */
  lemma NoLabelWithin(d: string, k: nat, j: nat)
    requires k <= j <= |d| && '.' !in d[k..j]
    ensures forall i :: k < i <= j ==> !LabelStart(d, i)
  {
    forall i | k < i <= j
      ensures !LabelStart(d, i)
    {
      assert d[i - 1] == d[k..j][i - 1 - k];
    }
  }

  /** The walk shared by the store, the Iranian TLDs and the preferred names: drop one label
      at a time until a name of the set is found or no label is left. */
  method SuffixWalk(names: set<string>, domain: string) returns (found: bool)
    ensures found <==> Matches(names, Normalize(domain))
  {
    ghost var whole := Normalize(domain);
    ghost var k := 0;
    var d := Normalize(domain);
    while true
      invariant LabelStart(whole, k) && d == whole[k..]
      invariant forall i :: LabelStart(whole, i) && i < k ==> whole[i..] !in names
      decreases |d|
    {
      if d in names {
        return true;
      }
      var dot := IndexByte(d, '.');
      if dot < 0 {
        NoLabelWithin(whole, k, |whole|);
        return false;
      }
      assert whole[k + dot] == '.' && d[..dot] == whole[k..k + dot];
      NoLabelWithin(whole, k, k + dot);
      d := d[dot + 1..];
      k := k + dot + 1;
    }
  }

  /** Once a name is in the set, every subdomain of it matches. */
  lemma SubdomainsMatch(names: set<string>, d: string, x: string)
    requires d != "" && Normalize(d) in names
    ensures Matches(names, Normalize(x + "." + d))
  {
    var q := Normalize(x + "." + d);
    assert q == Lower(x) + "." + Normalize(d);
    assert LabelStart(q, |x| + 1) && q[|x| + 1..] == Normalize(d);
  }

  lemma EmptySuffix(q: string)
    ensures Matches({""}, q) <==> q == "" || q[|q| - 1] == '.'
  {
    if q == "" || q[|q| - 1] == '.' {
      assert LabelStart(q, |q|) && q[|q|..] == "";
    }
    if i :| LabelStart(q, i) && q[i..] in {""} {
      assert i == |q|;
    }
  }

  /** The empty name is the exception: it matches no more than itself, the root, and what ends in
      two dots. */
  lemma EmptyNameCovers(x: string)
    ensures Matches({Normalize("")}, Normalize(x)) <==> x == "" || x == "." || (|x| >= 2 && x[|x| - 2] == x[|x| - 1] == '.')
  {
    EmptySuffix(Normalize(x));
    assert Normalize("") == "";
    var q := TrimDot(x);
    assert q != "" ==> Normalize(x)[|q| - 1] == LowerChar(q[|q| - 1]);
  }

  /** Taking a name out ends exactly the matches that had no other parent in the set. */
  lemma RemovalEndsSoleMatches(names: set<string>, gone: string, q: string)
    ensures Matches(names, q) && !Matches(names - {gone}, q) <==>
            Matches(names, q) && forall i :: LabelStart(q, i) && q[i..] in names ==> q[i..] == gone
  {
    assert forall i :: LabelStart(q, i) ==> (q[i..] in names - {gone} <==> q[i..] in names && q[i..] != gone);
  }
}
