/** What the handlers share: lists of missing field names, which are kept in a
    fixed order, and the scan of the language list for an id. */
module Validation {
  import opened Models

  /** Each element ranks strictly below the next: ordered and without repeats. */
  predicate StrictlyRanked(s: seq<string>, rank: string -> int)
  {
    forall i, j :: 0 <= i < j < |s| ==> rank(s[i]) < rank(s[j])
  }

  /** Every element ranks below `k`. */
  predicate RankedBelow(s: seq<string>, rank: string -> int, k: int)
  {
    forall i :: 0 <= i < |s| ==> rank(s[i]) < k
  }

  /** Appending an element that ranks above everything listed keeps the list
      strictly ranked. */
  lemma AppendRanked(s: seq<string>, rank: string -> int, f: string)
    requires StrictlyRanked(s, rank) && RankedBelow(s, rank, rank(f))
    ensures StrictlyRanked(s + [f], rank) && RankedBelow(s + [f], rank, rank(f) + 1)
  {
  }

  /** In a strictly ranked list every later element differs from the first. */
  lemma RankedTailAvoidsHead(s: seq<string>, rank: string -> int, f: string)
    requires StrictlyRanked(s, rank) && s != []
    requires f in s[1..]
    ensures f != s[0] && f in s
  {
    var i :| 0 <= i < |s[1..]| && s[1..][i] == f;
    assert s[i + 1] == f;
    assert rank(s[0]) < rank(s[i + 1]);
  }

  lemma NotHeadInTail(s: seq<string>, f: string)
    requires f in s && s != [] && f != s[0]
    ensures f in s[1..]
  {
    var j :| 0 <= j < |s| && s[j] == f;
    assert s[1..][j - 1] == f;
  }

  lemma NonEmptyHasMember(s: seq<string>)
    requires s != []
    ensures s[0] in s
  {
  }

  /** Two strictly ranked non-empty lists with the same members start alike. */
  lemma RankedSameHead(a: seq<string>, b: seq<string>, rank: string -> int)
    requires StrictlyRanked(a, rank) && StrictlyRanked(b, rank) && a != [] && b != []
    requires forall f :: f in a <==> f in b
    ensures a[0] == b[0]
  {
    assert a[0] in b;
    assert b[0] in a;
    var k :| 0 <= k < |b| && b[k] == a[0];
    var m :| 0 <= m < |a| && a[m] == b[0];
    // The heads have the least rank of their lists, so each ranks no higher
    // than the other; a later position would rank strictly higher.
    assert rank(a[0]) <= rank(a[m]) == rank(b[0]);
    assert rank(b[0]) <= rank(b[k]) == rank(a[0]);
    assert k == 0;
  }

  /** A strictly ranked list is fixed by its elements: two such lists with
      the same members are equal. */
  lemma {:induction false} RankedUnique(a: seq<string>, b: seq<string>, rank: string -> int)
    requires StrictlyRanked(a, rank) && StrictlyRanked(b, rank)
    requires forall f :: f in a <==> f in b
    ensures a == b
  {
    if a != [] && b != [] {
      RankedSameHead(a, b, rank);
      forall f ensures f in a[1..] <==> f in b[1..] {
        if f in a[1..] {
          RankedTailAvoidsHead(a, rank, f);
          NotHeadInTail(b, f);
        }
        if f in b[1..] {
          RankedTailAvoidsHead(b, rank, f);
          NotHeadInTail(a, f);
        }
      }
      assert StrictlyRanked(a[1..], rank) && StrictlyRanked(b[1..], rank);
      RankedUnique(a[1..], b[1..], rank);
      assert a == [a[0]] + a[1..] && b == [b[0]] + b[1..];
    } else if a != [] {
      NonEmptyHasMember(a);
      assert false;
    } else if b != [] {
      NonEmptyHasMember(b);
      assert false;
    }
  }

  /** Some language's id equals `langId` exactly. */
  predicate IsListed(languages: seq<Language>, langId: string)
  {
    exists i :: 0 <= i < |languages| && languages[i].id == langId
  }

  /** The `found` loop over the listed languages. */
  method LanguageListed(languages: seq<Language>, langId: string) returns (found: bool)
    ensures found <==> IsListed(languages, langId)
  {
    found := false;
    var i := 0;
    while i < |languages|
      invariant 0 <= i <= |languages|
      invariant forall k :: 0 <= k < i ==> languages[k].id != langId
    {
      if languages[i].id == langId {
        found := true;
        break;
      }
      i := i + 1;
    }
  }
}
