/** The single-row Levenshtein distance that picks the closest name. */
module EditDistance {
  /*
   `Distance` is the recursion on prefixes; the method keeps one row of its table. The distance is then
   tied to its meaning: the least number of single-character insertions, deletions and substitutions.
   Strings are sequences of code points, as they are after the source's rune conversion.
   */

  function Min(a: int, b: int): int {
    if b < a then b else a
  }

  function Init(s: string): string
    requires s != ""
  {
    s[..|s| - 1]
  }

  function Last(s: string): char
    requires s != ""
  {
    s[|s| - 1]
  }

  /** Equal last characters are matched without looking at the alternatives. */
  function Distance(a: string, b: string): (d: nat)
    decreases |a| + |b|
  {
    if a == "" then |b|
    else if b == "" then |a|
    else if Last(a) == Last(b) then Distance(Init(a), Init(b))
    else 1 + Min(Distance(Init(a), Init(b)), Min(Distance(Init(a), b), Distance(a, Init(b))))
  }

  /* ---- the method ---- */

  /** The table of the recursion, indexed by prefix lengths. */
  function Cell(a: string, b: string, i: nat, j: nat): nat
    requires i <= |a| && j <= |b|
  {
    Distance(a[..i], b[..j])
  }

  lemma Edges(a: string, b: string, i: nat, j: nat)
    requires i <= |a| && j <= |b|
    ensures Cell(a, b, i, 0) == i && Cell(a, b, 0, j) == j
  {
  }

  lemma Inner(a: string, b: string, i: nat, j: nat)
    requires 0 < i <= |a| && 0 < j <= |b|
    ensures
      Cell(a, b, i, j) == if a[i - 1] == b[j - 1] then Cell(a, b, i - 1, j - 1)
                          else 1 + Min(Cell(a, b, i - 1, j - 1), Min(Cell(a, b, i - 1, j), Cell(a, b, i, j - 1)))
  {
    assert Init(a[..i]) == a[..i - 1] && Last(a[..i]) == a[i - 1];
    assert Init(b[..j]) == b[..j - 1] && Last(b[..j]) == b[j - 1];
  }

  method Levenshtein(a: string, b: string) returns (d: nat)
    ensures d == Distance(a, b)
  {
    var row := new nat[|b| + 1];
    for j := 0 to |b| + 1
      invariant forall k :: 0 <= k < j ==> row[k] == Cell(a, b, 0, k)
    {
      Edges(a, b, 0, j);
      row[j] := j;
    }
    for i := 1 to |a| + 1
      invariant forall k :: 0 <= k <= |b| ==> row[k] == Cell(a, b, i - 1, k)
    {
      var prev := row[0];
      row[0] := i;
      Edges(a, b, i, 0);
      for j := 1 to |b| + 1
        invariant prev == Cell(a, b, i - 1, j - 1)
        invariant forall k :: 0 <= k < j ==> row[k] == Cell(a, b, i, k)
        invariant forall k :: j <= k <= |b| ==> row[k] == Cell(a, b, i - 1, k)
      {
        Inner(a, b, i, j);
        var tmp := row[j];
        if a[i - 1] == b[j - 1] {
          row[j] := prev;
        } else {
          row[j] := 1 + Min(prev, Min(row[j], row[j - 1]));
        }
        prev := tmp;
      }
    }
    assert a[..|a|] == a && b[..|b|] == b;
    d := row[|b|];
  }

  /* ---- what the distance means ---- */

  /** One insertion, deletion or substitution turns s into t. */
  ghost predicate OneEdit(s: string, t: string) {
    || (exists i, c :: IsInsertion(s, t, i, c))
    || (exists i, c :: IsInsertion(t, s, i, c))
    || (exists i, c :: IsSubstitution(s, t, i, c))
  }

  predicate IsInsertion(s: string, t: string, i: nat, c: char) {
    i <= |s| && t == s[..i] + [c] + s[i..]
  }

  predicate IsSubstitution(s: string, t: string, i: nat, c: char) {
    i < |s| && t == s[..i] + [c] + s[i + 1..]
  }

  /** Strings from `a` to `b`, each one edit after the one before. */
  ghost predicate IsChain(chain: seq<string>, a: string, b: string) {
    && chain != [] && chain[0] == a && chain[|chain| - 1] == b
    && forall i :: 0 < i < |chain| ==> OneEdit(chain[i - 1], chain[i])
  }

  /* ---- no chain is shorter ---- */

  /** Dropping or adding the last character changes the distance by at most one. */
  lemma {:induction false} LastCharacter(a: string, b: string)
    ensures b != "" ==> Distance(a, Init(b)) - 1 <= Distance(a, b) <= Distance(a, Init(b)) + 1
    ensures a != "" ==> Distance(Init(a), b) - 1 <= Distance(a, b) <= Distance(Init(a), b) + 1
    decreases |a| + |b|
  {
    if a != "" && b != "" {
      LastCharacter(Init(a), Init(b));
      LastCharacter(Init(a), b);
      LastCharacter(a, Init(b));
    }
  }

  /** Both last characters at once: a substitution costs at most one either way. */
  lemma BothLastCharacters(a: string, b: string)
    requires a != "" && b != ""
    ensures Distance(Init(a), Init(b)) <= Distance(a, b) <= Distance(Init(a), Init(b)) + 1
  {
    LastCharacter(a, b);
    LastCharacter(Init(a), b);
    LastCharacter(a, Init(b));
    LastCharacter(Init(a), Init(b));
  }

  /** Replacing the last character moves the distance by at most one: both lie just above the prefixes'. */
  lemma LastReplaced(p: string, c: char, c': char, b: string)
    ensures -1 <= Distance(p + [c], b) - Distance(p + [c'], b) <= 1
  {
    assert Init(p + [c]) == p == Init(p + [c']);
    if b != "" {
      BothLastCharacters(p + [c], b);
      BothLastCharacters(p + [c'], b);
    }
  }

  ghost predicate Close(s: string, t: string) {
    forall b: string :: -1 <= Distance(s, b) - Distance(t, b) <= 1
  }

  /** Being close survives a common last character. */
  lemma {:induction false} CloseUnderAppend(s: string, t: string, c: char, b: string)
    requires Close(s, t)
    ensures -1 <= Distance(s + [c], b) - Distance(t + [c], b) <= 1
    decreases |b|
  {
    assert Init(s + [c]) == s && Init(t + [c]) == t;
    assert -1 <= Distance(s, "") - Distance(t, "") <= 1;
    if b != "" {
      CloseUnderAppend(s, t, c, Init(b));
      assert -1 <= Distance(s, Init(b)) - Distance(t, Init(b)) <= 1;
      assert -1 <= Distance(s, b) - Distance(t, b) <= 1;
    }
  }

  lemma {:induction false} CloseUnderSuffix(s: string, t: string, u: string)
    requires Close(s, t)
    ensures Close(s + u, t + u)
    decreases |u|
  {
    if u == "" {
      assert s + u == s && t + u == t;
    } else {
      CloseUnderSuffix(s, t, Init(u));
      assert s + u == (s + Init(u)) + [Last(u)] && t + u == (t + Init(u)) + [Last(u)];
      forall b: string
        ensures -1 <= Distance(s + u, b) - Distance(t + u, b) <= 1
      {
        CloseUnderAppend(s + Init(u), t + Init(u), Last(u), b);
      }
    }
  }

  lemma InsertionIsClose(s: string, t: string, i: nat, c: char)
    requires IsInsertion(s, t, i, c)
    ensures Close(s, t)
  {
    var p := s[..i];
    forall b: string
      ensures -1 <= Distance(p, b) - Distance(p + [c], b) <= 1
    {
      assert Init(p + [c]) == p;
      LastCharacter(p + [c], b);
    }
    CloseUnderSuffix(p, p + [c], s[i..]);
    assert s == p + s[i..];
  }

  lemma SubstitutionIsClose(s: string, t: string, i: nat, c: char)
    requires IsSubstitution(s, t, i, c)
    ensures Close(s, t)
  {
    var p := s[..i];
    forall b: string
      ensures -1 <= Distance(p + [s[i]], b) - Distance(p + [c], b) <= 1
    {
      LastReplaced(p, s[i], c, b);
    }
    CloseUnderSuffix(p + [s[i]], p + [c], s[i + 1..]);
    assert s == p + [s[i]] + s[i + 1..];
  }

  /** One edit moves the distance to any string by at most one. */
  lemma OneEditIsClose(s: string, t: string)
    requires OneEdit(s, t)
    ensures Close(s, t)
  {
    if i, c :| IsInsertion(s, t, i, c) {
      InsertionIsClose(s, t, i, c);
    } else if i, c :| IsInsertion(t, s, i, c) {
      InsertionIsClose(t, s, i, c);
    } else {
      var i, c :| IsSubstitution(s, t, i, c);
      SubstitutionIsClose(s, t, i, c);
    }
  }

  /** Along a chain the distance to any string falls by at most one per edit. */
  lemma {:induction false} ChainIsLong(chain: seq<string>, a: string, b: string, c: string)
    requires IsChain(chain, a, b)
    ensures Distance(a, c) <= |chain| - 1 + Distance(b, c)
  {
    if |chain| > 1 {
      OneEditIsClose(chain[0], chain[1]);
      ChainIsLong(chain[1..], chain[1], b, c);
    }
  }

  lemma {:induction false} SelfDistance(a: string)
    ensures Distance(a, a) == 0
    decreases |a|
  {
    if a != "" { SelfDistance(Init(a)); }
  }

  /* ---- some chain is that short ---- */

  function AppendAll(chain: seq<string>, c: char): (r: seq<string>)
    ensures |r| == |chain| && forall i :: 0 <= i < |r| ==> r[i] == chain[i] + [c]
  {
    seq(|chain|, i requires 0 <= i < |chain| => chain[i] + [c])
  }

  lemma EditUnderAppend(s: string, t: string, l: char)
    requires OneEdit(s, t)
    ensures OneEdit(s + [l], t + [l])
  {
    if i, c :| IsInsertion(s, t, i, c) {
      assert IsInsertion(s + [l], t + [l], i, c);
    } else if i, c :| IsInsertion(t, s, i, c) {
      assert IsInsertion(t + [l], s + [l], i, c);
    } else {
      var i, c :| IsSubstitution(s, t, i, c);
      assert (s + [l])[i + 1..] == s[i + 1..] + [l];
      assert IsSubstitution(s + [l], t + [l], i, c);
    }
  }

  lemma ChainUnderAppend(chain: seq<string>, a: string, b: string, l: char)
    requires IsChain(chain, a, b)
    ensures IsChain(AppendAll(chain, l), a + [l], b + [l])
  {
    forall i | 0 < i < |chain|
      ensures OneEdit(chain[i - 1] + [l], chain[i] + [l])
    {
      EditUnderAppend(chain[i - 1], chain[i], l);
    }
  }

  lemma AddLast(s: string)
    requires s != ""
    ensures OneEdit(Init(s), s) && OneEdit(s, Init(s))
  {
    assert IsInsertion(Init(s), s, |s| - 1, Last(s));
  }

  lemma ChainGrows(chain: seq<string>, a: string, b: string, end: string)
    requires IsChain(chain, a, b) && OneEdit(b, end)
    ensures IsChain(chain + [end], a, end)
  {
  }

  lemma ChainStartsEarlier(chain: seq<string>, a: string, b: string, start: string)
    requires IsChain(chain, a, b) && OneEdit(start, a)
    ensures IsChain([start] + chain, start, b)
  {
  }

  /** A chain between the prefixes, the last character carried along and then replaced if need be. */
  lemma CarryLast(chain: seq<string>, a: string, b: string) returns (r: seq<string>)
    requires a != "" && b != "" && IsChain(chain, Init(a), Init(b))
    ensures IsChain(r, a, b) && |r| == |chain| + (if Last(a) == Last(b) then 0 else 1)
  {
    ChainUnderAppend(chain, Init(a), Init(b), Last(a));
    r := AppendAll(chain, Last(a));
    assert a == Init(a) + [Last(a)] && b == Init(b) + [Last(b)];
    if Last(a) != Last(b) {
      assert IsSubstitution(Init(b) + [Last(a)], b, |b| - 1, Last(b));
      ChainGrows(r, a, Init(b) + [Last(a)], b);
      r := r + [b];
    }
  }

  /** The recursion read as a plan: edits of the prefixes first, the last characters at the right end. */
  lemma {:induction false} ShortestChain(a: string, b: string) returns (chain: seq<string>)
    ensures IsChain(chain, a, b) && |chain| == Distance(a, b) + 1
    decreases |a| + |b|
  {
    if a == "" && b == "" {
      chain := [a];
    } else if a == "" || (b != "" && Last(a) != Last(b) && Distance(a, b) == 1 + Distance(a, Init(b))) {
      chain := ShortestChain(a, Init(b));
      AddLast(b);
      ChainGrows(chain, a, Init(b), b);
      chain := chain + [b];
    } else if b == "" || (Last(a) != Last(b) && Distance(a, b) == 1 + Distance(Init(a), b)) {
      chain := ShortestChain(Init(a), b);
      AddLast(a);
      ChainStartsEarlier(chain, Init(a), b, a);
      chain := [a] + chain;
    } else {
      chain := ShortestChain(Init(a), Init(b));
      chain := CarryLast(chain, a, b);
    }
  }

  /** The distance is the least number of edits. */
  lemma DistanceIsLeast(a: string, b: string)
    ensures exists chain :: IsChain(chain, a, b) && |chain| == Distance(a, b) + 1
    ensures forall chain :: IsChain(chain, a, b) ==> |chain| >= Distance(a, b) + 1
  {
    var chain := ShortestChain(a, b);
    forall chain: seq<string> | IsChain(chain, a, b)
      ensures |chain| >= Distance(a, b) + 1
    {
      ChainIsLong(chain, a, b, b);
      SelfDistance(b);
    }
  }

  /** A metric. */
  lemma DistanceIsMetric(a: string, b: string, c: string)
    ensures Distance(a, b) == 0 <==> a == b
    ensures Distance(a, b) == Distance(b, a)
    ensures Distance(a, c) <= Distance(a, b) + Distance(b, c)
  {
    SelfDistance(a);
    Symmetric(a, b);
    var chain := ShortestChain(a, b);
    ChainIsLong(chain, a, b, c);
  }

  lemma {:induction false} Symmetric(a: string, b: string)
    ensures Distance(a, b) == Distance(b, a)
    decreases |a| + |b|
  {
    if a != "" && b != "" {
      Symmetric(Init(a), Init(b));
      Symmetric(Init(a), b);
      Symmetric(a, Init(b));
    }
  }

  /* ---- the suggestion ---- */

  /** The first candidate with the least distance; -1 without candidates. */
  method ClosestMatch(query: string, candidates: seq<string>) returns (best: string, bestDist: int)
    ensures candidates == [] ==> best == "" && bestDist == -1
    ensures candidates != [] ==>
              exists i :: 0 <= i < |candidates| && best == candidates[i] && bestDist == Distance(query, candidates[i])
                          && (forall j :: 0 <= j < |candidates| ==> bestDist <= Distance(query, candidates[j]))
                          && (forall j :: 0 <= j < i ==> bestDist < Distance(query, candidates[j]))
  {
    best, bestDist := "", -1;
    ghost var first := 0;
    for k := 0 to |candidates|
      invariant k == 0 ==> best == "" && bestDist == -1
      invariant 0 <= first <= k
      invariant k > 0 ==> first < k && best == candidates[first] && bestDist == Distance(query, candidates[first])
      invariant forall j :: 0 <= j < k ==> bestDist <= Distance(query, candidates[j])
      invariant forall j :: 0 <= j < first ==> bestDist < Distance(query, candidates[j])
    {
      var d := Levenshtein(query, candidates[k]);
      if bestDist < 0 || d < bestDist {
        best, bestDist, first := candidates[k], d, k;
      }
    }
  }
}
