/** The Postgres store, with the tables held in memory: the key parsers, the
    existence guards whose WHERE clauses fix the case rules, the schema probe
    and its two flags, the vocab listings and the IN-clause builder. */
module Store {
  import opened Wrappers
  import opened Text
  import opened Models
  import opened PackKeys
  import opened Sequences

  // ---------------------------------------------------------------- keys

  /** parsePackKey: a key with exactly two ':' splits into user id, language id and name. */
  function ParsePackKey(key: string): (r: Option<(string, string, string)>)
    ensures r.Some? <==> Count(key, ':') == 2
    ensures r.Some? ==> key == r.value.0 + ":" + r.value.1 + ":" + r.value.2
    ensures r.Some? ==> ':' !in r.value.0 && ':' !in r.value.1 && ':' !in r.value.2
  {
    var parts := Split(key, ':');
    SplitLength(key, ':');
    JoinOfSplit(key, ':');
    SplitPiecesFree(key, ':');
    if |parts| != 3 then None
    else
      assert parts[1..][1..] == parts[2..];
      assert Join(parts[2..], ':') == parts[2];
      assert Join(parts[1..], ':') == parts[1] + [':'] + parts[2];
      assert Join(parts, ':') == parts[0] + [':'] + (parts[1] + [':'] + parts[2]);
      Some((parts[0], parts[1], parts[2]))
  }

  /** parseVocabKeyByPack: a key with exactly one ':' splits into pack id and name. */
  function ParseVocabKey(key: string): (r: Option<(string, string)>)
    ensures r.Some? <==> Count(key, ':') == 1
    ensures r.Some? ==> key == r.value.0 + ":" + r.value.1
    ensures r.Some? ==> ':' !in r.value.0 && ':' !in r.value.1
  {
    var parts := Split(key, ':');
    SplitLength(key, ':');
    JoinOfSplit(key, ':');
    SplitPiecesFree(key, ':');
    if |parts| != 2 then None
    else
      assert Join(parts, ':') == parts[0] + [':'] + parts[1];
      Some((parts[0], parts[1]))
  }

  /** Parts without ':' come back from the key MakePackKey builds, the name lower-cased. */
  lemma PackKeyRoundTrip(userId: string, langId: string, packName: string)
    requires ':' !in userId && ':' !in langId && ':' !in packName
    ensures ParsePackKey(MakePackKey(userId, langId, packName)) == Some((userId, langId, Lower(packName)))
  {
    var name := Lower(packName);
    CountLower(packName, ':');
    CountZero(packName, ':');
    CountZero(name, ':');
    SplitThree(userId, langId, name, ':');
  }

  /** A ':' inside any part makes the key unparsable. */
  lemma ColonBreaksPackKey(userId: string, langId: string, packName: string)
    requires ':' in userId || ':' in langId || ':' in packName
    ensures ParsePackKey(MakePackKey(userId, langId, packName)).None?
  {
    KeyColonCount(userId, langId, packName);
    CountZero(userId, ':');
    CountZero(langId, ':');
    CountZero(packName, ':');
  }

  /** The WHERE clause of PackExistsByKey and GetPackIDByKey: all three columns
      compared case-insensitively. */
  predicate PackKeyMatches(p: Pack, userId: string, langId: string, name: string)
  {
    Lower(p.userId) == Lower(userId) && Lower(p.langId) == Lower(langId) && Lower(p.name) == Lower(name)
  }

  /** The WHERE clause of VocabExistsByKey: the pack id compared exactly, the name case-insensitively. */
  predicate VocabKeyMatches(v: Vocab, packId: string, name: string)
  {
    v.packId == packId && Lower(v.name) == Lower(name)
  }

  // ---------------------------------------------------------------- rows

  function LanguageName(l: Language): string { l.name }

  function VocabName(v: Vocab): string { v.name }

  function PackName(p: Pack): string { p.name }

  /** A vocab row as the current schema reads it back: without a translation
      column the translation is "". */
  function Project(v: Vocab, withTranslation: bool): Vocab
  {
    if withTranslation then v else v.(translation := "")
  }

  /** The rows of `vs` the query keeps, in table order and projected. */
  function SelectRows(vs: seq<Vocab>, keep: Vocab -> bool, withTranslation: bool): (rows: seq<Vocab>)
    ensures |rows| <= |vs|
    ensures !withTranslation ==> forall i :: 0 <= i < |rows| ==> rows[i].translation == ""
  {
    if vs == [] then []
    else
      var last := vs[|vs| - 1];
      SelectRows(vs[..|vs| - 1], keep, withTranslation) + (if keep(last) then [Project(last, withTranslation)] else [])
  }

  /** A row is returned iff it is the projection of a kept row. */
  lemma {:induction false} SelectRowsMembers(vs: seq<Vocab>, keep: Vocab -> bool, withTranslation: bool, x: Vocab)
    ensures x in SelectRows(vs, keep, withTranslation) <==> exists v :: v in vs && keep(v) && x == Project(v, withTranslation)
  {
    if vs != [] {
      var init := vs[..|vs| - 1];
      SelectRowsMembers(init, keep, withTranslation, x);
      assert vs == init + [vs[|vs| - 1]];
      if x in SelectRows(vs, keep, withTranslation) && x !in SelectRows(init, keep, withTranslation) {
        assert vs[|vs| - 1] in vs;
      }
      if exists v :: v in vs && keep(v) && x == Project(v, withTranslation) {
        var v :| v in vs && keep(v) && x == Project(v, withTranslation);
        if v !in init {
          assert v == vs[|vs| - 1];
        }
      }
    }
  }

  /** The join and filter of ListVocabs: the vocab's pack belongs to the user
      and language (compared exactly), and its id is among `packIds` when any are given. */
  predicate InOwnerScope(packs: seq<Pack>, v: Vocab, userId: string, langId: string, packIds: seq<string>)
  {
    && (exists p :: p in packs && p.id == v.packId && p.userId == userId && p.langId == langId)
    && (packIds == [] || v.packId in packIds)
  }

  function OwnerRows(vocabs: seq<Vocab>, packs: seq<Pack>, userId: string, langId: string, packIds: seq<string>, withTranslation: bool): seq<Vocab>
  {
    SelectRows(vocabs, v => InOwnerScope(packs, v, userId, langId, packIds), withTranslation)
  }

  function PackRows(vocabs: seq<Vocab>, packId: string, withTranslation: bool): seq<Vocab>
  {
    SelectRows(vocabs, (v: Vocab) => v.packId == packId, withTranslation)
  }

  /** What ListVocabs can return: exactly the in-scope vocabs, projected. */
  lemma OwnerRowsMembers(vocabs: seq<Vocab>, packs: seq<Pack>, userId: string, langId: string, packIds: seq<string>, withTranslation: bool, x: Vocab)
    ensures x in OwnerRows(vocabs, packs, userId, langId, packIds, withTranslation) <==>
      exists v :: v in vocabs && InOwnerScope(packs, v, userId, langId, packIds) && x == Project(v, withTranslation)
  {
    SelectRowsMembers(vocabs, v => InOwnerScope(packs, v, userId, langId, packIds), withTranslation, x);
  }

  /** What ListVocabsByPackID can return: exactly the vocabs with that pack id, projected. */
  lemma PackRowsMembers(vocabs: seq<Vocab>, packId: string, withTranslation: bool, x: Vocab)
    ensures x in PackRows(vocabs, packId, withTranslation) <==>
      exists v :: v in vocabs && v.packId == packId && x == Project(v, withTranslation)
  {
    SelectRowsMembers(vocabs, (v: Vocab) => v.packId == packId, withTranslation, x);
  }

  // ---------------------------------------------------------------- the IN clause

  function Placeholder(k: nat): string
  {
    "$" + NatToString(k)
  }

  /** The IN-clause part of ListVocabs: one placeholder per pack id, numbered
      from 3 because $1 and $2 are the user id and the language id. */
  method BuildInClause(userId: string, langId: string, packIds: seq<string>)
    returns (clause: string, placeholders: seq<string>, args: seq<string>)
    ensures args == [userId, langId] + packIds
    ensures |placeholders| == |packIds|
    ensures forall i :: 0 <= i < |packIds| ==> placeholders[i] == Placeholder(i + 3)
    ensures packIds == [] ==> clause == ""
    ensures packIds != [] ==> clause == " AND v.pack_id IN (" + Join(placeholders, ',') + ")"
  {
    args := [userId, langId];
    clause := "";
    placeholders := [];
    if |packIds| > 0 {
      var slots := new string[|packIds|];
      var i := 0;
      while i < |packIds|
        invariant 0 <= i <= |packIds|
        invariant args == [userId, langId] + packIds[..i]
        invariant forall k :: 0 <= k < i ==> slots[k] == Placeholder(k + 3)
      {
        slots[i] := "$" + NatToString(i + 3);
        args := args + [packIds[i]];
        assert packIds[..i + 1] == packIds[..i] + [packIds[i]];
        i := i + 1;
      }
      assert packIds[..|packIds|] == packIds;
      placeholders := slots[..];
      clause := " AND v.pack_id IN (" + Join(placeholders, ',') + ")";
    }
  }

  /** Placeholder i names argument i+3, which is pack id i. */
  lemma PlaceholderBinds(userId: string, langId: string, packIds: seq<string>, i: nat)
    requires i < |packIds|
    ensures var args := [userId, langId] + packIds;
      var k := DigitsValue(Placeholder(i + 3)[1..]);
      k == i + 3 && 3 <= k <= |args| && args[k - 1] == packIds[i]
  {
    assert Placeholder(i + 3)[1..] == NatToString(i + 3);
    DigitsValueOfNatToString(i + 3);
  }

  /** No placeholder is repeated. */
  lemma PlaceholdersDistinct(i: nat, j: nat)
    requires Placeholder(i) == Placeholder(j)
    ensures i == j
  {
    assert Placeholder(i)[1..] == NatToString(i);
    assert Placeholder(j)[1..] == NatToString(j);
    NatToStringInjective(i, j);
  }

  // ---------------------------------------------------------------- the store

  /** The database behind the package globals: `connected` is `db != nil`. */
  class Store {
    const connected: bool
    var languages: seq<Language>
    var packs: seq<Pack>
    var vocabs: seq<Vocab>
    var probedSchema: bool
    var hasVocabTranslation: bool

    /** A store whose languages are seeded and whose schema is not yet probed. */
    constructor (connected: bool, languages: seq<Language>)
      ensures this.connected == connected && this.languages == languages
      ensures packs == [] && vocabs == [] && !probedSchema && !hasVocabTranslation
    {
      this.connected := connected;
      this.languages := languages;
      packs := [];
      vocabs := [];
      probedSchema := false;
      hasVocabTranslation := false;
    }

    /** LanguagesList: every language, ordered by name; none without a database. */
    function LanguagesList(): (r: seq<Language>)
      reads this
      ensures !connected ==> r == []
      ensures connected ==> multiset(r) == multiset(languages) && SortedBy(r, LanguageName)
    {
      if connected then SortBy(languages, LanguageName) else []
    }

    /** LanguageExists: some language has exactly this code, so the check
        agrees with the listing; never without a database. */
    predicate LanguageExists(code: string)
      reads this
      ensures LanguageExists(code) <==>
        connected && exists i :: 0 <= i < |LanguagesList()| && LanguagesList()[i].code == code
    {
      if !connected then false
      else
        ListedCodes(code);
        exists i :: 0 <= i < |languages| && languages[i].code == code
    }

    /** Sorting the languages keeps the codes they have. */
    lemma ListedCodes(code: string)
      requires connected
      ensures (exists i :: 0 <= i < |languages| && languages[i].code == code) <==>
              (exists i :: 0 <= i < |LanguagesList()| && LanguagesList()[i].code == code)
    {
      var listed := LanguagesList();
      if i :| 0 <= i < |languages| && languages[i].code == code {
        assert languages[i] in multiset(listed);
        var j :| 0 <= j < |listed| && listed[j] == languages[i];
      }
      if i :| 0 <= i < |listed| && listed[i].code == code {
        assert listed[i] in multiset(languages);
        var j :| 0 <= j < |languages| && languages[j] == listed[i];
      }
    }

    /** GetLanguageByCode: a language with exactly this code, if there is one. */
    function GetLanguageByCode(code: string): (r: Option<Language>)
      reads this
      ensures r.Some? <==> LanguageExists(code)
      ensures r.Some? ==> r.value in languages && r.value.code == code
    {
      if !connected then None
      else
        var i := FirstIndex(languages, (l: Language) => l.code == code);
        if i.Some? then Some(languages[i.value]) else None
    }

    /** GetAllPacks: every pack, ordered by name; none without a database. */
    function AllPacks(): (r: seq<Pack>)
      reads this
      ensures !connected ==> r == []
      ensures connected ==> multiset(r) == multiset(packs) && SortedBy(r, PackName)
    {
      if connected then SortBy(packs, PackName) else []
    }

    /** PackExistsByKey: the key parses into user id, language id and name,
        and some pack matches them; only a key with exactly two ':' can exist. */
    predicate PackExistsByKey(key: string)
      reads this
      ensures PackExistsByKey(key) ==> connected && key != "" && Count(key, ':') == 2
    {
      && connected && key != "" && ParsePackKey(key).Some?
      && var (u, l, n) := ParsePackKey(key).value;
         exists i :: 0 <= i < |packs| && PackKeyMatches(packs[i], u, l, n)
    }

    /** GetPackIDByKey: the id of a pack the key matches, or "". */
    function GetPackIDByKey(key: string): (id: string)
      reads this
      ensures !PackExistsByKey(key) ==> id == ""
      ensures PackExistsByKey(key) ==>
        var (u, l, n) := ParsePackKey(key).value;
        exists i :: 0 <= i < |packs| && packs[i].id == id && PackKeyMatches(packs[i], u, l, n)
    {
      if !connected || key == "" then ""
      else match ParsePackKey(key)
        case None => ""
        case Some((u, l, n)) =>
          var i := FirstIndex(packs, p => PackKeyMatches(p, u, l, n));
          if i.Some? then packs[i.value].id else ""
    }

    /** VocabExistsByKey: the key parses into pack id and name, and some vocab
        matches them; only a key with exactly one ':' can exist. */
    predicate VocabExistsByKey(key: string)
      reads this
      ensures VocabExistsByKey(key) ==> connected && key != "" && Count(key, ':') == 1
    {
      && connected && key != "" && ParseVocabKey(key).Some?
      && var (packId, name) := ParseVocabKey(key).value;
         exists i :: 0 <= i < |vocabs| && VocabKeyMatches(vocabs[i], packId, name)
    }

    /** No two packs share an id, as the primary key of the packs table demands. */
    predicate PackIdsDistinct()
      reads this
    {
      forall i, j :: 0 <= i < j < |packs| ==> packs[i].id != packs[j].id
    }

    /** No pack has this id yet. */
    predicate FreshPackId(id: string)
      reads this
    {
      forall i :: 0 <= i < |packs| ==> packs[i].id != id
    }

    /** GetPackByID: a pack with exactly that id, if there is one. */
    function GetPackByID(id: string): (r: Option<Pack>)
      reads this
      ensures r.Some? <==> connected && exists i :: 0 <= i < |packs| && packs[i].id == id
      ensures r.Some? ==> r.value in packs && r.value.id == id
    {
      if !connected then None
      else
        var i := FirstIndex(packs, (p: Pack) => p.id == id);
        if i.Some? then Some(packs[i.value]) else None
    }

    /** For a key built from parts without ':', existence is the case-insensitive
        match on all three parts. */
    lemma PackKeyLookup(userId: string, langId: string, packName: string)
      requires ':' !in userId && ':' !in langId && ':' !in packName
      ensures PackExistsByKey(MakePackKey(userId, langId, packName)) <==>
        connected && exists i :: 0 <= i < |packs| && PackKeyMatches(packs[i], userId, langId, packName)
    {
      PackKeyRoundTrip(userId, langId, packName);
      LowerIdempotent(packName);
    }

    /** A ':' in the user id, language id or name makes the pack unfindable. */
    lemma ColonKeyNeverFound(userId: string, langId: string, packName: string)
      requires ':' in userId || ':' in langId || ':' in packName
      ensures !PackExistsByKey(MakePackKey(userId, langId, packName))
      ensures GetPackIDByKey(MakePackKey(userId, langId, packName)) == ""
    {
      ColonBreaksPackKey(userId, langId, packName);
    }

    /** An empty key, or one without exactly two ':', is never found. */
    lemma MalformedPackKeyNeverFound(key: string)
      requires key == "" || Count(key, ':') != 2
      ensures !PackExistsByKey(key) && GetPackIDByKey(key) == ""
    {
    }

    /** An empty key, or one without exactly one ':', is never found. */
    lemma MalformedVocabKeyNeverFound(key: string)
      requires key == "" || Count(key, ':') != 1
      ensures !VocabExistsByKey(key)
    {
    }

    /** For a `packId:name` key without further ':', a vocab exists iff one has
        exactly that pack id and the name up to ASCII case. */
    lemma VocabKeyLookup(packId: string, name: string)
      requires ':' !in packId && ':' !in name
      ensures VocabExistsByKey(packId + ":" + name) <==>
        connected && exists i :: 0 <= i < |vocabs| && vocabs[i].packId == packId && Lower(vocabs[i].name) == Lower(name)
    {
      var key := packId + ":" + name;
      assert key == packId + [':'] + name;
      SplitAtFirstSep(packId, name, ':');
      SplitWithoutSep(name, ':');
      assert Split(key, ':') == [packId, name];
      SplitLength(key, ':');
    }

    /** probeSchema: the first call with a database records whether the
        translation column exists; every later call changes nothing. */
    method ProbeSchema(columnFound: bool)
      modifies this
      ensures languages == old(languages) && packs == old(packs) && vocabs == old(vocabs)
      ensures connected && !old(probedSchema) ==> probedSchema && hasVocabTranslation == columnFound
      ensures !connected || old(probedSchema) ==>
        probedSchema == old(probedSchema) && hasVocabTranslation == old(hasVocabTranslation)
    {
      if !connected || probedSchema {
        return;
      }
      hasVocabTranslation := columnFound;
      probedSchema := true;
    }

    /** CreatePack: appends the pack (insert errors are not modelled). A pack
        under a fresh id keeps the ids distinct and is what GetPackByID finds. */
    method CreatePack(p: Pack)
      modifies this
      ensures packs == if connected then old(packs) + [p] else old(packs)
      ensures languages == old(languages) && vocabs == old(vocabs)
      ensures probedSchema == old(probedSchema) && hasVocabTranslation == old(hasVocabTranslation)
      ensures old(PackIdsDistinct()) && old(FreshPackId(p.id)) ==> PackIdsDistinct()
      ensures connected && old(FreshPackId(p.id)) ==> GetPackByID(p.id) == Some(p)
    {
      if !connected {
        return;
      }
      packs := packs + [p];
      if old(FreshPackId(p.id)) {
        assert forall i :: 0 <= i < |packs| - 1 ==> packs[i].id != p.id;
        assert packs[|packs| - 1] == p;
      }
    }

    /** CreateVocab: probes the schema, then stores the translation only when
        the column exists. */
    method CreateVocab(v: Vocab, columnFound: bool)
      modifies this
      ensures connected && !old(probedSchema) ==> probedSchema && hasVocabTranslation == columnFound
      ensures !connected || old(probedSchema) ==>
        probedSchema == old(probedSchema) && hasVocabTranslation == old(hasVocabTranslation)
      ensures vocabs == if connected then old(vocabs) + [Project(v, hasVocabTranslation)] else old(vocabs)
      ensures languages == old(languages) && packs == old(packs)
    {
      if !connected {
        return;
      }
      ProbeSchema(columnFound);
      if hasVocabTranslation {
        vocabs := vocabs + [v];
        return;
      }
      vocabs := vocabs + [v.(translation := "")];
    }

    /** ListVocabs: the user's vocabs in that language, limited to `packIds`
        when any are given, ordered by name. */
    method ListVocabs(userId: string, langId: string, packIds: seq<string>, columnFound: bool)
      returns (out: seq<Vocab>)
      modifies this
      ensures !connected ==> out == [] && probedSchema == old(probedSchema) && hasVocabTranslation == old(hasVocabTranslation)
      ensures connected && !old(probedSchema) ==> probedSchema && hasVocabTranslation == columnFound
      ensures connected && old(probedSchema) ==> hasVocabTranslation == old(hasVocabTranslation) && probedSchema
      ensures connected ==>
        && multiset(out) == multiset(OwnerRows(vocabs, packs, userId, langId, packIds, hasVocabTranslation))
        && SortedBy(out, VocabName)
      ensures languages == old(languages) && packs == old(packs) && vocabs == old(vocabs)
    {
      if !connected {
        return [];
      }
      ProbeSchema(columnFound);
      var clause, placeholders, args := BuildInClause(userId, langId, packIds);
      // The IN list binds exactly `packIds`, the list InOwnerScope filters by.
      assert args[2..] == packIds;
      var rows := OwnerRows(vocabs, packs, userId, langId, packIds, hasVocabTranslation);
      out := SortBy(rows, VocabName);
    }

    /** ListVocabsByPackID: the vocabs with exactly that pack id, ordered by
        name; none for an empty id. */
    method ListVocabsByPackID(packId: string, columnFound: bool) returns (out: seq<Vocab>)
      modifies this
      ensures !connected || packId == "" ==>
        out == [] && probedSchema == old(probedSchema) && hasVocabTranslation == old(hasVocabTranslation)
      ensures connected && packId != "" && !old(probedSchema) ==> probedSchema && hasVocabTranslation == columnFound
      ensures connected && packId != "" && old(probedSchema) ==> probedSchema && hasVocabTranslation == old(hasVocabTranslation)
      ensures connected && packId != "" ==>
        && multiset(out) == multiset(PackRows(vocabs, packId, hasVocabTranslation))
        && SortedBy(out, VocabName)
      ensures languages == old(languages) && packs == old(packs) && vocabs == old(vocabs)
    {
      if !connected || packId == "" {
        return [];
      }
      ProbeSchema(columnFound);
      var rows := PackRows(vocabs, packId, hasVocabTranslation);
      out := SortBy(rows, VocabName);
    }

    /** Reset: empties packs and vocabs; the languages stay. */
    method Reset()
      modifies this
      ensures connected ==> packs == [] && vocabs == []
      ensures !connected ==> packs == old(packs) && vocabs == old(vocabs)
      ensures languages == old(languages)
      ensures probedSchema == old(probedSchema) && hasVocabTranslation == old(hasVocabTranslation)
    {
      if !connected {
        return;
      }
      packs := [];
      vocabs := [];
    }
  }
}
