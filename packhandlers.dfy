/** The pack endpoints: create a pack (validation, language check, duplicate
    check, insert) and fetch one pack with its vocabs. */
module PackHandlers {
  import opened Wrappers
  import opened Text
  import opened Models
  import opened PackKeys
  import opened Sequences
  import opened Store
  import opened Validation

  /** The three fields the create request's JSON body may carry. */
  datatype CreatePackRequest = CreatePackRequest(name: string, langId: string, userId: string)

  /** What the JSON decoder made of the body: a decode error, with the error code
      its classification chose, or the request plus whether the body ended
      after that one object. */
  datatype DecodedBody =
    | DecodeFailed(code: ErrorCode)
    | Decoded(req: CreatePackRequest, singleObject: bool)

  /** The reply to GetPackByIDHandler: the pack and its vocabs. */
  datatype PackDetail = PackDetail(pack: Pack, vocabs: seq<Vocab>)

  // ---------------------------------------------------------------- missing fields

  /** `f` is one of the required fields and the request leaves it empty (no trimming). */
  predicate IsMissingPackField(req: CreatePackRequest, f: string)
  {
    (f == "name" && req.name == "") || (f == "lang_id" && req.langId == "") || (f == "user_id" && req.userId == "")
  }

  /** The order in which the missing fields are reported. */
  function PackFieldRank(f: string): int
  {
    if f == "name" then 0 else if f == "lang_id" then 1 else 2
  }

  lemma PackFieldRanks()
    ensures PackFieldRank("name") == 0 && PackFieldRank("lang_id") == 1 && PackFieldRank("user_id") == 2
  {
  }

  /** `fields` lists exactly the missing fields, each once, in the order name, lang_id, user_id. */
  ghost predicate ListsMissingPackFields(req: CreatePackRequest, fields: seq<string>)
  {
    && (forall f :: f in fields <==> IsMissingPackField(req, f))
    && StrictlyRanked(fields, PackFieldRank)
  }

  /** The `missing` slice of CreatePackHandler. */
  method MissingPackFields(req: CreatePackRequest) returns (missing: seq<string>)
    ensures ListsMissingPackFields(req, missing)
    ensures missing == [] <==> req.name != "" && req.langId != "" && req.userId != ""
  {
    PackFieldRanks();
    missing := [];
    if req.name == "" {
      AppendRanked(missing, PackFieldRank, "name");
      missing := missing + ["name"];
    }
    if req.langId == "" {
      AppendRanked(missing, PackFieldRank, "lang_id");
      missing := missing + ["lang_id"];
    }
    if req.userId == "" {
      AppendRanked(missing, PackFieldRank, "user_id");
      missing := missing + ["user_id"];
    }
  }

  /** The report is determined by the request: only one list lists the missing fields. */
  lemma MissingPackFieldsDetermined(req: CreatePackRequest, a: seq<string>, b: seq<string>)
    requires ListsMissingPackFields(req, a) && ListsMissingPackFields(req, b)
    ensures a == b
  {
    RankedUnique(a, b, PackFieldRank);
  }

  /** A language is in the listing iff it is among the stored languages. */
  lemma ListedLanguages(st: Store, langId: string)
    requires st.connected
    ensures IsListed(st.LanguagesList(), langId) <==> IsListed(st.languages, langId)
  {
    var listed := st.LanguagesList();
    if i :| 0 <= i < |listed| && listed[i].id == langId {
      assert listed[i] in multiset(st.languages);
    }
    if i :| 0 <= i < |st.languages| && st.languages[i].id == langId {
      assert st.languages[i] in multiset(listed);
    }
  }

  // ---------------------------------------------------------------- handlers

  /** GetPacksHandler: every pack, ordered by name. */
  method GetPacksHandler(st: Store) returns (reply: Reply<seq<Pack>>)
    ensures reply.Done? && reply.status == StatusOK
    ensures multiset(reply.data) == if st.connected then multiset(st.packs) else multiset{}
    ensures SortedBy(reply.data, PackName)
  {
    var packs := st.AllPacks();
    return Done(StatusOK, packs);
  }

  /** CreatePackHandler: decode errors, then the single-object check, the
      missing fields, the language, the duplicate check, and finally the insert. */
  method CreatePackHandler(st: Store, body: DecodedBody, newId: string) returns (reply: Reply<Pack>)
    requires st.FreshPackId(newId)
    modifies st
    ensures old(st.PackIdsDistinct()) ==> st.PackIdsDistinct()
    ensures reply.Done? ==> st.GetPackByID(newId) == Some(reply.data)
    ensures st.languages == old(st.languages) && st.vocabs == old(st.vocabs)
    ensures st.probedSchema == old(st.probedSchema) && st.hasVocabTranslation == old(st.hasVocabTranslation)
    ensures reply.Fail? ==> st.packs == old(st.packs)
    ensures reply.Done? ==> st.packs == old(st.packs) + [reply.data]
    ensures body.DecodeFailed? ==> reply == Fail(StatusBadRequest, body.code, [])
    ensures body.Decoded? && !body.singleObject ==> reply == Fail(StatusBadRequest, MultipleObjects, [])
    ensures body.Decoded? && body.singleObject ==>
      var req := body.req;
      if req.name == "" || req.langId == "" || req.userId == "" then
        && reply.Fail? && reply.status == StatusBadRequest && reply.code == MissingFields
        && ListsMissingPackFields(req, reply.fields)
      else if !IsListed(old(st.LanguagesList()), req.langId) then
        reply == Fail(StatusBadRequest, InvalidLanguage, [req.langId])
      else if old(st.PackExistsByKey(MakePackKey(req.userId, req.langId, req.name))) then
        reply == Fail(StatusConflict, DuplicatePack, [req.name, req.userId, req.langId])
      else
        reply == Done(StatusCreated, Pack(newId, req.name, req.langId, req.userId, false))
  {
    if body.DecodeFailed? {
      return Fail(StatusBadRequest, body.code, []);
    }
    if !body.singleObject {
      return Fail(StatusBadRequest, MultipleObjects, []);
    }
    var req := body.req;
    var missing := MissingPackFields(req);
    if |missing| > 0 {
      return Fail(StatusBadRequest, MissingFields, missing);
    }
    var langs := st.LanguagesList();
    var found := LanguageListed(langs, req.langId);
    if !found {
      return Fail(StatusBadRequest, InvalidLanguage, [req.langId]);
    }
    var key := MakePackKey(req.userId, req.langId, req.name);
    if st.PackExistsByKey(key) {
      return Fail(StatusConflict, DuplicatePack, [req.name, req.userId, req.langId]);
    }
    var pack := Pack(newId, req.name, req.langId, req.userId, false);
    st.CreatePack(pack);
    return Done(StatusCreated, pack);
  }

  /** GetPackByIDHandler: a blank id is a bad request, an unknown id is not
      found, and otherwise the reply holds the pack and its vocabs. */
  method GetPackByIDHandler(st: Store, rawId: string, columnFound: bool) returns (reply: Reply<PackDetail>)
    modifies st
    ensures st.languages == old(st.languages) && st.packs == old(st.packs) && st.vocabs == old(st.vocabs)
    ensures reply.Fail? ==> st.probedSchema == old(st.probedSchema) && st.hasVocabTranslation == old(st.hasVocabTranslation)
    ensures reply.Done? ==> st.probedSchema && st.hasVocabTranslation == (if old(st.probedSchema) then old(st.hasVocabTranslation) else columnFound)
    ensures TrimSpace(rawId) == "" ==> reply == Fail(StatusBadRequest, InvalidPack, [])
    ensures TrimSpace(rawId) != "" && old(st.GetPackByID(TrimSpace(rawId))).None? ==>
      reply == Fail(StatusNotFound, InvalidPack, [TrimSpace(rawId)])
    ensures TrimSpace(rawId) != "" && old(st.GetPackByID(TrimSpace(rawId))).Some? ==>
      && reply.Done? && reply.status == StatusOK
      && reply.data.pack == old(st.GetPackByID(TrimSpace(rawId))).value
      && multiset(reply.data.vocabs) == multiset(PackRows(st.vocabs, reply.data.pack.id, st.hasVocabTranslation))
      && SortedBy(reply.data.vocabs, VocabName)
  {
    var id := TrimSpace(rawId);
    if id == "" {
      return Fail(StatusBadRequest, InvalidPack, []);
    }
    var found := st.GetPackByID(id);
    if found.None? {
      return Fail(StatusNotFound, InvalidPack, [id]);
    }
    var p := found.value;
    var vocabs := st.ListVocabsByPackID(p.id, columnFound);
    return Done(StatusOK, PackDetail(p, vocabs));
  }

  // ---------------------------------------------------------------- requests in sequence

  /** Two creates in a row for the same user and language whose names agree up
      to ASCII case: once the first is stored (or was already a duplicate) the
      second is a conflict. */
  method CreateSameNameTwice(st: Store, first: CreatePackRequest, second: CreatePackRequest, id1: string, id2: string)
    returns (r1: Reply<Pack>, r2: Reply<Pack>)
    requires second.userId == first.userId && second.langId == first.langId
    requires Lower(second.name) == Lower(first.name)
    requires ':' !in first.userId && ':' !in first.langId && ':' !in first.name && ':' !in second.name
    requires st.FreshPackId(id1) && st.FreshPackId(id2) && id1 != id2
    modifies st
    ensures (r1.Done? || r1.code == DuplicatePack) ==> r2.Fail? && r2.status == StatusConflict && r2.code == DuplicatePack
    ensures st.packs == old(st.packs) + (if r1.Done? then [r1.data] else [])
  {
    ghost var listed := st.LanguagesList();
    r1 := CreatePackHandler(st, Decoded(first, true), id1);
    assert st.LanguagesList() == listed;
    assert st.FreshPackId(id2) by {
      assert r1.Done? ==> r1.data.id == id1;
    }
    if r1.Done? || r1.code == DuplicatePack {
      assert |Lower(second.name)| == |Lower(first.name)|;
      st.PackKeyLookup(second.userId, second.langId, second.name);
      if r1.Done? {
        var last := |st.packs| - 1;
        assert st.packs[last] == r1.data;
        assert PackKeyMatches(st.packs[last], second.userId, second.langId, second.name);
      } else {
        st.PackKeyLookup(first.userId, first.langId, first.name);
        var i :| 0 <= i < |st.packs| && PackKeyMatches(st.packs[i], first.userId, first.langId, first.name);
        assert PackKeyMatches(st.packs[i], second.userId, second.langId, second.name);
      }
    }
    r2 := CreatePackHandler(st, Decoded(second, true), id2);
  }

  /** A ':' in the name makes the key unparsable, so the duplicate check never
      fires: the same request is admitted twice. */
  method ColonNameAdmittedTwice(st: Store, req: CreatePackRequest, id1: string, id2: string)
    returns (r1: Reply<Pack>, r2: Reply<Pack>)
    requires ':' in req.name && req.langId != "" && req.userId != ""
    requires st.connected && IsListed(st.languages, req.langId)
    requires st.FreshPackId(id1) && st.FreshPackId(id2) && id1 != id2
    modifies st
    ensures r1 == Done(StatusCreated, Pack(id1, req.name, req.langId, req.userId, false))
    ensures r2 == Done(StatusCreated, Pack(id2, req.name, req.langId, req.userId, false))
    ensures st.packs == old(st.packs) + [r1.data, r2.data]
  {
    ListedLanguages(st, req.langId);
    st.ColonKeyNeverFound(req.userId, req.langId, req.name);
    r1 := CreatePackHandler(st, Decoded(req, true), id1);
    assert st.FreshPackId(id2) by {
      assert st.packs == old(st.packs) + [r1.data] && r1.data.id == id1;
    }
    ListedLanguages(st, req.langId);
    st.ColonKeyNeverFound(req.userId, req.langId, req.name);
    r2 := CreatePackHandler(st, Decoded(req, true), id2);
  }
}
