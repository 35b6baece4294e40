/**
 Edit distance, defined twice.

 `Lev` is the recurrence that the gateway's two-row loops tabulate.  The reference
 notion is `EditChain`: a walk through the space of strings in which every step inserts,
 deletes or replaces one character.  `LevIsShortestChain` connects the two.
 */
module EditDistance {
  import opened Numbers

  function Cost(c: char, d: char): nat {
    if c == d then 0 else 1
  }

  function Init(s: string): string
    requires s != ""
  {
    s[..|s| - 1]
  }

  function Last(s: string): char
    requires s != ""
  {
    s[|s| - 1]
  }

  function Lev(a: string, b: string): nat
    decreases |a| + |b|
  {
    if a == "" then |b|
    else if b == "" then |a|
    else Min(Min(Lev(Init(a), b) + 1, Lev(a, Init(b)) + 1), Lev(Init(a), Init(b)) + Cost(Last(a), Last(b)))
  }

  // ---------- Reference semantics: walks of single edits ----------

  /** y arises from x by replacing the part `del` at position p with `ins`, each at most one character long. */
  ghost predicate EditAt(x: string, y: string, p: nat, del: string, ins: string) {
    && |del| <= 1 && |ins| <= 1
    && p + |del| <= |x|
    && x[p..p + |del|] == del
    && y == x[..p] + ins + x[p + |del|..]
  }

  ghost predicate OneEdit(x: string, y: string) {
    exists p: nat, del, ins :: EditAt(x, y, p, del, ins)
  }

  ghost predicate EditChain(chain: seq<string>, a: string, b: string) {
    && |chain| > 0 && chain[0] == a && chain[|chain| - 1] == b
    && forall i :: 0 < i < |chain| ==> OneEdit(chain[i - 1], chain[i])
  }

  // ---------- Metric laws ----------

  lemma {:induction false} LevSelf(a: string)
    ensures Lev(a, a) == 0
  {
    if a != "" {
      LevSelf(Init(a));
    }
  }

  lemma {:induction false} LevZero(a: string, b: string)
    ensures Lev(a, b) == 0 <==> a == b
    decreases |a| + |b|
  {
    if a == b {
      LevSelf(a);
    } else if a != "" && b != "" {
      LevZero(Init(a), Init(b));
      assert a == Init(a) + [Last(a)] && b == Init(b) + [Last(b)];
    }
  }

  lemma {:induction false} LevSymmetric(a: string, b: string)
    ensures Lev(a, b) == Lev(b, a)
    decreases |a| + |b|
  {
    if a != "" && b != "" {
      LevSymmetric(Init(a), b);
      LevSymmetric(a, Init(b));
      LevSymmetric(Init(a), Init(b));
    }
  }

  lemma {:induction false} LevTriangle(a: string, b: string, c: string)
    ensures Lev(a, c) <= Lev(a, b) + Lev(b, c)
    decreases |a| + |b| + |c|
  {
    LevBounds(a, c);
    LevBounds(a, b);
    LevBounds(b, c);
    if a == "" || b == "" || c == "" {
    } else if Lev(a, b) == Lev(Init(a), b) + 1 {
      LevTriangle(Init(a), b, c);
    } else if Lev(b, c) == Lev(b, Init(c)) + 1 {
      LevTriangle(a, b, Init(c));
    } else if Lev(a, b) == Lev(a, Init(b)) + 1 {
      if Lev(b, c) == Lev(Init(b), c) + 1 {
        LevTriangle(a, Init(b), c);
      } else {
        LevTriangle(a, Init(b), Init(c));
      }
    } else if Lev(b, c) == Lev(Init(b), c) + 1 {
      LevTriangle(Init(a), Init(b), c);
    } else {
      LevTriangle(Init(a), Init(b), Init(c));
    }
  }

  /** The length difference bounds the distance from below, the longer length from above. */
  lemma {:induction false} LevBounds(a: string, b: string)
    ensures |a| - |b| <= Lev(a, b) && |b| - |a| <= Lev(a, b)
    ensures Lev(a, b) <= |a| || Lev(a, b) <= |b|
    decreases |a| + |b|
  {
    if a != "" && b != "" {
      LevBounds(Init(a), b);
      LevBounds(a, Init(b));
      LevBounds(Init(a), Init(b));
    }
  }

  // ---------- Every walk is at least Lev long ----------

  /** A common suffix does not raise the distance. */
  lemma {:induction false} LevCommonSuffix(x: string, y: string, s: string)
    ensures Lev(x + s, y + s) <= Lev(x, y)
  {
    if s == "" {
      assert x + s == x && y + s == y;
    } else {
      assert Init(x + s) == x + Init(s) && Init(y + s) == y + Init(s);
      LevCommonSuffix(x, y, Init(s));
    }
  }

  /** Replacing a tail of at most one character by another costs at most one. */
  lemma LevTail(x: string, del: string, ins: string)
    requires |del| <= 1 && |ins| <= 1
    ensures Lev(x + del, x + ins) <= 1
  {
    LevSelf(x);
    assert x + "" == x;
    if del == "" && ins == "" {
    } else if del == "" {
      LevInsertLast(x, ins[0]);
      assert ins == [ins[0]];
    } else if ins == "" {
      LevInsertLast(x, del[0]);
      LevSymmetric(x, x + [del[0]]);
      assert del == [del[0]];
    } else {
      LevReplaceLast(x, del[0], ins[0]);
      assert del == [del[0]] && ins == [ins[0]];
    }
  }

  lemma LevInsertLast(x: string, c: char)
    ensures Lev(x, x + [c]) <= 1
  {
    LevSelf(x);
    assert Init(x + [c]) == x;
  }

  lemma LevReplaceLast(x: string, c: char, d: char)
    ensures Lev(x + [c], x + [d]) <= 1
  {
    LevSelf(x);
    assert Init(x + [c]) == x && Init(x + [d]) == x;
  }

  lemma LevOneEdit(x: string, y: string)
    requires OneEdit(x, y)
    ensures Lev(x, y) <= 1
  {
    var p: nat, del, ins :| EditAt(x, y, p, del, ins);
    var s := x[p + |del|..];
    assert x == (x[..p] + del) + s;
    assert y == (x[..p] + ins) + s;
    LevTail(x[..p], del, ins);
    LevCommonSuffix(x[..p] + del, x[..p] + ins, s);
  }

  lemma {:induction false} LevLowerBound(chain: seq<string>, a: string, b: string)
    requires EditChain(chain, a, b)
    ensures Lev(a, b) <= |chain| - 1
    decreases |chain|
  {
    if |chain| == 1 {
      LevSelf(a);
    } else {
      var shorter := chain[..|chain| - 1];
      var m := shorter[|shorter| - 1];
      assert forall i :: 0 <= i < |shorter| ==> shorter[i] == chain[i];
      LevLowerBound(shorter, a, m);
      assert OneEdit(chain[|chain| - 1 - 1], chain[|chain| - 1]);
      LevOneEdit(m, b);
      LevTriangle(a, m, b);
    }
  }

  // ---------- Some walk is exactly Lev long ----------

  /** Prolongs a walk by one edit at the end of its last string. */
  lemma ExtendChain(chain: seq<string>, a: string, x: string, del: string, ins: string) returns (longer: seq<string>)
    requires EditChain(chain, a, x + del) && |del| <= 1 && |ins| <= 1
    ensures EditChain(longer, a, x + ins) && |longer| == |chain| + 1
  {
    longer := chain + [x + ins];
    assert EditAt(x + del, x + ins, |x|, del, ins);
    forall i | 0 < i < |longer|
      ensures OneEdit(longer[i - 1], longer[i])
    {
      if i < |chain| {
        assert OneEdit(chain[i - 1], chain[i]);
      } else {
        assert longer[i - 1] == x + del && longer[i] == x + ins;
      }
    }
  }

  /** Appending the same character to every string of a walk gives a walk. */
  lemma AppendToChain(chain: seq<string>, a: string, b: string, c: char) returns (lifted: seq<string>)
    requires EditChain(chain, a, b)
    ensures EditChain(lifted, a + [c], b + [c]) && |lifted| == |chain|
  {
    lifted := seq(|chain|, i requires 0 <= i < |chain| => chain[i] + [c]);
    forall i | 0 < i < |lifted|
      ensures OneEdit(lifted[i - 1], lifted[i])
    {
      var x, y := chain[i - 1], chain[i];
      assert OneEdit(x, y);
      var p: nat, del, ins :| EditAt(x, y, p, del, ins);
      assert lifted[i] == lifted[i - 1][..p] + ins + lifted[i - 1][p + |del|..];
      assert EditAt(lifted[i - 1], lifted[i], p, del, ins);
    }
  }

  /** Prolongs a walk from all but the last character of a to one from a. */
  lemma StartEarlier(rest: seq<string>, a: string, b: string) returns (chain: seq<string>)
    requires a != "" && EditChain(rest, Init(a), b)
    ensures EditChain(chain, a, b) && |chain| == |rest| + 1
  {
    chain := [a] + rest;
    assert EditAt(a, Init(a), |a| - 1, [Last(a)], "");
    forall i | 0 < i < |chain|
      ensures OneEdit(chain[i - 1], chain[i])
    {
      if i == 1 {
        assert chain[0] == a && chain[1] == Init(a);
      } else {
        assert OneEdit(rest[i - 2], rest[i - 1]);
      }
    }
  }

  lemma {:induction false} LevAttained(a: string, b: string) returns (chain: seq<string>)
    ensures EditChain(chain, a, b) && |chain| - 1 == Lev(a, b)
    decreases |a| + |b|
  {
    if a == "" && b == "" {
      chain := [a];
    } else if b != "" && (a == "" || Lev(a, b) == Lev(a, Init(b)) + 1) {
      chain := LevAttained(a, Init(b));
      assert Init(b) + "" == Init(b);
      chain := ExtendChain(chain, a, Init(b), "", [Last(b)]);
      assert b == Init(b) + [Last(b)];
    } else if b == "" || Lev(a, b) == Lev(Init(a), b) + 1 {
      chain := LevAttained(Init(a), b);
      chain := StartEarlier(chain, a, b);
    } else {
      chain := LevAttained(Init(a), Init(b));
      chain := ChangeLast(chain, a, b);
    }
  }

  /**
   Takes a walk between all but the last characters to one between the strings, exchanging the last one if
   need be.
   */
  lemma ChangeLast(front: seq<string>, a: string, b: string) returns (chain: seq<string>)
    requires a != "" && b != "" && EditChain(front, Init(a), Init(b))
    ensures EditChain(chain, a, b) && |chain| == |front| + Cost(Last(a), Last(b))
  {
    chain := AppendToChain(front, Init(a), Init(b), Last(a));
    assert a == Init(a) + [Last(a)] && b == Init(b) + [Last(b)];
    if Last(a) != Last(b) {
      chain := ExtendChain(chain, a, Init(b), [Last(a)], [Last(b)]);
    }
  }

  /** d is the least number of single-character edits that turn a into b. */
  ghost predicate IsEditDistance(d: nat, a: string, b: string) {
    && (exists chain :: EditChain(chain, a, b) && |chain| - 1 == d)
    && (forall chain :: EditChain(chain, a, b) ==> d <= |chain| - 1)
  }

  lemma LevIsShortestChain(a: string, b: string, d: nat)
    ensures IsEditDistance(d, a, b) <==> d == Lev(a, b)
  {
    var best := LevAttained(a, b);
    forall chain | EditChain(chain, a, b)
      ensures Lev(a, b) <= |chain| - 1
    {
      LevLowerBound(chain, a, b);
    }
  }

  // ---------- The table that the two-row loops fill ----------

  /** The distance between the first i characters of a and the first j characters of b. */
  function Cell(a: string, b: string, i: nat, j: nat): nat
    requires i <= |a| && j <= |b|
  {
    Lev(a[..i], b[..j])
  }

  lemma CellEdge(a: string, b: string, i: nat, j: nat)
    requires i <= |a| && j <= |b| && (i == 0 || j == 0)
    ensures Cell(a, b, i, j) == i + j
  {
  }

  lemma CellStep(a: string, b: string, i: nat, j: nat)
    requires i < |a| && j < |b|
    ensures Cell(a, b, i + 1, j + 1) ==
            Min(Min(Cell(a, b, i, j + 1) + 1, Cell(a, b, i + 1, j) + 1), Cell(a, b, i, j) + Cost(a[i], b[j]))
  {
    assert Init(a[..i + 1]) == a[..i] && Init(b[..j + 1]) == b[..j];
  }

  lemma LastCell(a: string, b: string)
    ensures IsEditDistance(Cell(a, b, |a|, |b|), a, b)
  {
    assert a[..|a|] == a && b[..|b|] == b;
    LevIsShortestChain(a, b, Lev(a, b));
  }

  /** The distance is determined by the two strings, and is zero only between equal ones. */
  lemma DistanceIsUnique(a: string, b: string, d: nat)
    requires IsEditDistance(d, a, b)
    ensures forall e: nat :: IsEditDistance(e, a, b) ==> e == d
    ensures d == 0 <==> a == b
  {
    forall e: nat | IsEditDistance(e, a, b)
      ensures e == d
    {
      LevIsShortestChain(a, b, e);
      LevIsShortestChain(a, b, d);
    }
    LevIsShortestChain(a, b, d);
    LevZero(a, b);
  }

  lemma DistanceIsSymmetric(a: string, b: string, d: nat)
    requires IsEditDistance(d, a, b)
    ensures IsEditDistance(d, b, a)
  {
    LevIsShortestChain(a, b, d);
    LevSymmetric(a, b);
    LevIsShortestChain(b, a, d);
  }

  lemma DistanceIsTriangular(a: string, b: string, c: string, ab: nat, bc: nat, ac: nat)
    requires IsEditDistance(ab, a, b) && IsEditDistance(bc, b, c) && IsEditDistance(ac, a, c)
    ensures ac <= ab + bc
  {
    LevIsShortestChain(a, b, ab);
    LevIsShortestChain(b, c, bc);
    LevIsShortestChain(a, c, ac);
    LevTriangle(a, b, c);
  }

  lemma DistanceOfEmpty(s: string)
    ensures IsEditDistance(|s|, s, "") && IsEditDistance(|s|, "", s)
  {
    LevIsShortestChain(s, "", |s|);
    LevIsShortestChain("", s, |s|);
  }
}
