/** The composite key that identifies a pack: user id, language id and the
    lower-cased pack name, separated by ':'. */
module PackKeys {
  import opened Text

  /** MakePackKey: only the pack name is lower-cased; the user id and the
      language id are kept as given and nothing is trimmed. */
  function MakePackKey(userId: string, langId: string, packName: string): (key: string)
    ensures |key| == |userId| + |langId| + |packName| + 2
    ensures key[..|userId|] == userId && key[|userId|] == ':'
    ensures key[|userId| + 1..|userId| + 1 + |langId|] == langId && key[|userId| + 1 + |langId|] == ':'
    ensures key[|userId| + |langId| + 2..] == Lower(packName)
  {
    userId + ":" + langId + ":" + Lower(packName)
  }

  /** The key never is empty: with all three parts empty it is "::". */
  lemma EmptyPartsKey()
    ensures MakePackKey("", "", "") == "::"
  {
  }

  /** Two names give the same key (for the same user and language) exactly
      when they agree up to ASCII case. */
  lemma KeyIgnoresNameCase(userId: string, langId: string, name1: string, name2: string)
    ensures MakePackKey(userId, langId, name1) == MakePackKey(userId, langId, name2) <==> Lower(name1) == Lower(name2)
  {
    var k1 := MakePackKey(userId, langId, name1);
    var k2 := MakePackKey(userId, langId, name2);
    if k1 == k2 {
      assert Lower(name1) == k1[|userId| + |langId| + 2..];
    }
  }

  lemma {:induction false} CountLower(s: string, c: char)
    requires !IsAsciiUpper(c) && !IsAsciiLower(c)
    ensures Count(Lower(s), c) == Count(s, c)
  {
    if s != [] {
      CountLower(s[1..], c);
      assert Lower(s)[1..] == Lower(s[1..]);
    }
  }

  /** The number of ':' in a key: two separators plus those inside the parts. */
  lemma KeyColonCount(userId: string, langId: string, packName: string)
    ensures Count(MakePackKey(userId, langId, packName), ':') == Count(userId, ':') + Count(langId, ':') + Count(packName, ':') + 2
  {
    CountLower(packName, ':');
    CountConcat(userId, ":", ':');
    CountConcat(userId + ":", langId, ':');
    CountConcat(userId + ":" + langId, ":", ':');
    CountConcat(userId + ":" + langId + ":", Lower(packName), ':');
  }
}
