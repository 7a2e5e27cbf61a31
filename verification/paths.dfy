/**
  Path names: the names of the enclosing pipelines and of a stage, joined by an arrow.
 */
module Paths {

  const ARROW: string := "->"

  predicate ArrowAt(s: string, i: int) {
    0 <= i < |s| - 1 && s[i] == '-' && s[i + 1] == '>'
  }

  /** A name without an arrow. */
  ghost predicate Plain(s: string) {
    forall i :: !ArrowAt(s, i)
  }

  ghost predicate AllPlain(parts: seq<string>) {
    forall i | 0 <= i < |parts| :: Plain(parts[i])
  }

  /** Where the first arrow from position i on starts; the length of the string if there is none. */
  function FirstArrow(s: string, i: nat): (r: nat)
    requires i <= |s|
    ensures i <= r <= |s|
    ensures r < |s| ==> ArrowAt(s, r)
    ensures forall j | i <= j < r :: !ArrowAt(s, j)
    decreases |s| - i
  {
    if i == |s| then |s| else if ArrowAt(s, i) then i else FirstArrow(s, i + 1)
  }

  /** Cut a string at its arrows, from the left. */
  function Split(s: string): (parts: seq<string>)
    ensures parts != []
    decreases |s|
  {
    var i := FirstArrow(s, 0);
    if i == |s| then [s] else [s[..i]] + Split(s[i + 2..])
  }

  function Join(parts: seq<string>): string {
    if parts == [] then ""
    else if |parts| == 1 then parts[0]
    else parts[0] + ARROW + Join(parts[1..])
  }

  function CascadeName(parents: seq<string>, current: string): string {
    Join(parents) + ARROW + current
  }

  function TailExtract(v: string): string {
    Split(v)[|Split(v)| - 1]
  }

  lemma FirstArrowUnique(s: string, i: nat)
    requires ArrowAt(s, i) && forall j | 0 <= j < i :: !ArrowAt(s, j)
    ensures FirstArrow(s, 0) == i
  {
    var r := FirstArrow(s, 0);
    assert r < i ==> ArrowAt(s, r);
  }

  lemma SplitPlain(s: string)
    ensures Plain(s) <==> Split(s) == [s]
  {
    var i := FirstArrow(s, 0);
    if i < |s| {
      assert |Split(s)| > 1;
    } else {
      forall j ensures !ArrowAt(s, j) {}
    }
  }

  /** Where a string is followed by a separator its own arrows stay where they are. */
  lemma ArrowsOfHead(x: string, y: string)
    ensures forall j | 0 <= j < |x| :: ArrowAt(x + ARROW + y, j) <==> ArrowAt(x, j)
    ensures ArrowAt(x + ARROW + y, |x|)
  {
    var s := x + ARROW + y;
    forall j | 0 <= j < |x| ensures ArrowAt(s, j) <==> ArrowAt(x, j) {
      if j == |x| - 1 {
        assert s[j + 1] == '-';
      }
    }
  }

  lemma SplitStep(s: string, i: nat)
    requires ArrowAt(s, i) && forall j | 0 <= j < i :: !ArrowAt(s, j)
    ensures Split(s) == [s[..i]] + Split(s[i + 2..])
  {
    FirstArrowUnique(s, i);
  }

  lemma CutAtSeparator(x: string, y: string)
    ensures (x + ARROW + y)[..|x|] == x && (x + ARROW + y)[|x| + 2..] == y
  {
  }

  lemma CutBefore(x: string, y: string, i: nat)
    requires i + 2 <= |x|
    ensures (x + ARROW + y)[..i] == x[..i] && (x + ARROW + y)[i + 2..] == x[i + 2..] + ARROW + y
  {
  }

  /** A separator is always found, whatever the strings on its two sides end and begin with. */
  lemma {:induction false} SplitAtArrow(x: string, y: string)
    ensures Split(x + ARROW + y) == Split(x) + Split(y)
    decreases |x|
  {
    hide ArrowAt;
    var s, i := x + ARROW + y, FirstArrow(x, 0);
    ArrowsOfHead(x, y);
    if i == |x| {
      SplitStep(s, i);
      CutAtSeparator(x, y);
    } else {
      ArrowFits(x, i);
      CutBefore(x, y, i);
      SplitStep(s, i);
      SplitStep(x, i);
      SplitAtArrow(x[i + 2..], y);
    }
  }

  lemma ArrowFits(x: string, i: nat)
    requires ArrowAt(x, i)
    ensures i + 2 <= |x|
  {
  }

  lemma {:induction false} JoinSnoc(parts: seq<string>, n: string)
    requires parts != []
    ensures Join(parts + [n]) == CascadeName(parts, n)
  {
    var all := parts + [n];
    assert all[1..] == parts[1..] + [n];
    if |parts| > 1 {
      JoinSnoc(parts[1..], n);
      assert Join(all) == parts[0] + ARROW + (Join(parts[1..]) + ARROW + n);
      assert parts[0] + ARROW + (Join(parts[1..]) + ARROW + n) == (parts[0] + ARROW + Join(parts[1..])) + ARROW + n;
    } else {
      assert all[1..] == [n];
    }
  }

  /** Path names are unambiguous: cutting one gives back its parts. */
  lemma {:induction false} SplitJoin(parts: seq<string>)
    requires parts != [] && AllPlain(parts)
    ensures Split(Join(parts)) == parts
  {
    SplitPlain(parts[0]);
    if |parts| > 1 {
      SplitJoin(parts[1..]);
      SplitAtArrow(parts[0], Join(parts[1..]));
      assert [parts[0]] + parts[1..] == parts;
    }
  }

  /** Joining the parts of any string gives the string back. */
  lemma {:induction false} JoinSplit(s: string)
    ensures Join(Split(s)) == s
    decreases |s|
  {
    var i := FirstArrow(s, 0);
    if i < |s| {
      JoinSplit(s[i + 2..]);
      assert Split(s)[1..] == Split(s[i + 2..]);
      assert s == s[..i] + ARROW + s[i + 2..];
    }
  }

  lemma {:induction false} PartsArePlain(s: string)
    ensures AllPlain(Split(s))
    decreases |s|
  {
    var i := FirstArrow(s, 0);
    if i == |s| {
      assert Plain(s);
    } else {
      PartsArePlain(s[i + 2..]);
      assert forall j | 0 <= j && j + 1 < i :: ArrowAt(s[..i], j) <==> ArrowAt(s, j);
    }
  }

  /** Cutting a string gives the only list of plain parts that joins to it. */
  lemma SplitIs(s: string, parts: seq<string>)
    ensures Split(s) == parts <==> parts != [] && AllPlain(parts) && Join(parts) == s
  {
    PartsArePlain(s);
    JoinSplit(s);
    if parts != [] && AllPlain(parts) && Join(parts) == s {
      SplitJoin(parts);
    }
  }

  lemma JoinInjective(p: seq<string>, q: seq<string>)
    requires p != [] && q != [] && AllPlain(p) && AllPlain(q) && Join(p) == Join(q)
    ensures p == q
  {
    SplitJoin(p);
    SplitJoin(q);
  }

  /** Cutting a cascaded name gives back the parents and the stage name. */
  lemma SplitCascade(parents: seq<string>, n: string)
    requires parents != [] && AllPlain(parents) && Plain(n)
    ensures Split(CascadeName(parents, n)) == parents + [n]
  {
    SplitJoin(parents);
    SplitAtArrow(Join(parents), n);
    SplitPlain(n);
  }

  /** The tail of a cascaded name is the stage name exactly when that has no arrow, whatever the parents are. */
  lemma TailOfCascade(parents: seq<string>, n: string)
    ensures TailExtract(CascadeName(parents, n)) == n <==> Plain(n)
  {
    var s := CascadeName(parents, n);
    SplitAtArrow(Join(parents), n);
    SplitPlain(n);
    JoinSplit(n);
    if TailExtract(s) == n {
      var tail := Split(n)[|Split(n)| - 1];
      assert tail == n;
      LastPartShorter(n);
    }
  }

  lemma {:induction false} LastPartShorter(s: string)
    ensures |Split(s)| > 1 ==> |Split(s)[|Split(s)| - 1]| < |s|
    decreases |s|
  {
    var i := FirstArrow(s, 0);
    if i < |s| {
      LastPartShorter(s[i + 2..]);
      SplitPlain(s[i + 2..]);
      var rest := Split(s[i + 2..]);
      assert Split(s)[|Split(s)| - 1] == rest[|rest| - 1];
      if |rest| == 1 {
        JoinSplit(s[i + 2..]);
      }
    }
  }

  /** A longer string has at least as many parts. */
  lemma {:induction false} PartsOfPrefix(x: string, s: string)
    requires x <= s
    ensures |Split(x)| <= |Split(s)|
    decreases |x|
  {
    var i := FirstArrow(x, 0);
    if i < |x| {
      forall j | 0 <= j <= i ensures ArrowAt(s, j) <==> ArrowAt(x, j) {}
      FirstArrowUnique(s, i);
      assert x[i + 2..] <= s[i + 2..];
      PartsOfPrefix(x[i + 2..], s[i + 2..]);
    }
  }

  /**
    When one path name is a raw prefix of another that is one part longer: the enclosing parts
    agree, and the last part begins the part it is compared with, or is that part and the dash
    of the arrow.
   */
  lemma {:induction false} RawPrefix(p: seq<string>, q: seq<string>)
    requires AllPlain(p) && AllPlain(q) && |q| == |p| + 1 && |p| > 0
    ensures Join(p) <= Join(q) <==>
              p[..|p| - 1] == q[..|p| - 1] && p[|p| - 1] <= q[|p| - 1] + "-"
  {
    var k := |p| - 1;
    if k == 0 {
      assert q[1..] == [q[1]];
      RawPrefixBase(p[0], q[0], q[1]);
    } else {
      RawPrefix(p[1..], q[1..]);
      RawPrefixHead(p[0], Join(p[1..]), q[0], Join(q[1..]));
      assert p[1..][..k - 1] == p[..k][1..] && q[1..][..k - 1] == q[..k][1..];
      assert p[..k] == [p[0]] + p[..k][1..] && q[..k] == [q[0]] + q[..k][1..];
      assert p[1..][k - 1] == p[k] && q[1..][k - 1] == q[k];
    }
  }

  lemma RawPrefixBase(a: string, b: string, c: string)
    requires Plain(a)
    ensures a <= b + ARROW + c <==> a <= b + "-"
  {
    var s := b + ARROW + c;
    assert s[..|b| + 1] == b + "-";
    assert !ArrowAt(a, |b|);
    assert a <= s ==> |a| <= |b| + 1;
  }

  lemma RawPrefixHead(a: string, x: string, b: string, y: string)
    requires Plain(a) && Plain(b)
    ensures a + ARROW + x <= b + ARROW + y <==> a == b && x <= y
  {
    var s, t := a + ARROW + x, b + ARROW + y;
    if s <= t {
      FirstOfHead(a, x);
      FirstOfHead(b, y);
      forall j | 0 <= j <= |a| ensures ArrowAt(s, j) <==> ArrowAt(t, j) {}
      FirstArrowUnique(t, |a|);
      assert |a| == |b|;
      assert s[..|a|] == a && t[..|b|] == b && s[..|a|] == t[..|a|];
      assert a == b;
      assert s[|a| + 2..] == x && t[|b| + 2..] == y;
      assert s[|a| + 2..] <= t[|a| + 2..];
    }
    if a == b && x <= y {
      assert t[|s|..] == y[|x|..];
      assert t == s + y[|x|..];
    }
  }

  lemma FirstOfHead(a: string, x: string)
    requires Plain(a)
    ensures FirstArrow(a + ARROW + x, 0) == |a|
  {
    var s := a + ARROW + x;
    forall j | 0 <= j < |a| ensures !ArrowAt(s, j) {
      assert !ArrowAt(a, j);
      if j == |a| - 1 {
        assert s[j + 1] == '-';
      }
    }
    assert ArrowAt(s, |a|);
    FirstArrowUnique(s, |a|);
  }
}
