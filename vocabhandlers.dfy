/** The vocab endpoints: create a vocab from a multipart upload, and draw
    flashcards for a user and language. */
module VocabHandlers {
  import opened Wrappers
  import opened Text
  import opened Models
  import opened Sequences
  import opened Store
  import opened Files
  import opened Validation

  /** 10 << 20 bytes: the upload limit. */
  const MaxUploadSize: int := 10 * 1024 * 1024

  // ---------------------------------------------------------------- the create request

  /** The uploaded file part: absent, present but unreadable, or with the
      client's file name and declared size. */
  datatype FilePart = NoFile | UnreadableFile | File(filename: string, declaredSize: int)

  /** What reading the first 512 bytes through the size limit gave: the bytes
      read (fewer than 512 when the stream ended early), the end of the stream
      before any byte, the size limit, or another read error. */
  datatype HeadRead = HeadBytes(bytes: seq<byte>) | HeadAtEnd | HeadLimitExceeded | HeadReadFailed

  /** The request as the handler reads it: its Content-Type header, whether
      the multipart form parsed, the three form values and the file part. */
  datatype CreateVocabRequest = CreateVocabRequest(
    contentType: string, formParsed: bool,
    name: string, translation: string, packId: string,
    file: FilePart)

  /** The upload stream: its head, then the bytes the copy delivers and the
      error that ended the copy, if any. */
  datatype Upload = Upload(head: HeadRead, rest: seq<byte>, restError: Option<StreamError>)

  /** Every check that comes before the file is written. */
  predicate PassesUploadGates(req: CreateVocabRequest, upload: Upload, detect: seq<byte> -> string)
  {
    && HasPrefix(req.contentType, "multipart/form-data")
    && req.formParsed
    && req.file.File?
    && req.file.declaredSize <= MaxUploadSize
    && upload.head.HeadBytes?
    && HasPrefix(detect(upload.head.bytes), "image/")
  }

  /** The rejections before the upload, in the handler's order; None lets the upload go ahead. */
  function UploadGate(req: CreateVocabRequest, upload: Upload, detect: seq<byte> -> string): (r: Option<Reply<Vocab>>)
    ensures r.None? <==> PassesUploadGates(req, upload, detect)
    ensures r.Some? ==> r.value.Fail?
    ensures r.Some? && r.value.code == FileTooLarge <==>
      && HasPrefix(req.contentType, "multipart/form-data") && req.formParsed && req.file.File?
      && (req.file.declaredSize > MaxUploadSize || upload.head.HeadAtEnd? || upload.head.HeadLimitExceeded?)
    ensures r.Some? && r.value.code == FileTooLarge ==> r.value.status == StatusRequestEntityTooLarge
  {
    if !HasPrefix(req.contentType, "multipart/form-data") then Some(Fail(StatusUnsupportedMediaType, InvalidJson, []))
    else if !req.formParsed then Some(Fail(StatusBadRequest, InvalidJson, []))
    else if req.file.NoFile? then Some(Fail(StatusBadRequest, MissingFields, ["image"]))
    else if req.file.UnreadableFile? then Some(Fail(StatusBadRequest, InvalidJson, []))
    else if req.file.declaredSize > 0 && req.file.declaredSize > MaxUploadSize then Some(Fail(StatusRequestEntityTooLarge, FileTooLarge, []))
    else match upload.head
      case HeadLimitExceeded => Some(Fail(StatusRequestEntityTooLarge, FileTooLarge, []))
      case HeadAtEnd => Some(Fail(StatusRequestEntityTooLarge, FileTooLarge, []))
      case HeadReadFailed => Some(Fail(StatusBadRequest, InvalidFileType, []))
      case HeadBytes(bytes) =>
        var sniffed := detect(bytes);
        if !HasPrefix(sniffed, "image/") then Some(Fail(StatusBadRequest, InvalidFileType, [sniffed]))
        else None
  }

  /** How a failed UploadImage is reported. */
  function UploadFailureReply(e: UploadError): (r: Reply<Vocab>)
    ensures r.Fail? && r.fields == []
    ensures r.code == InvalidFileType <==> e == UnknownFileType
    ensures r.code == FileTooLarge <==> e == CopyFailed(BytesLimitExceeded)
    ensures r.code == Internal <==> r.status == StatusInternalServerError
    ensures r.code == InvalidFileType ==> r.status == StatusBadRequest
    ensures r.code == FileTooLarge ==> r.status == StatusRequestEntityTooLarge
  {
    match e
      case UnknownFileType => Fail(StatusBadRequest, InvalidFileType, [])
      case CopyFailed(BytesLimitExceeded) => Fail(StatusRequestEntityTooLarge, FileTooLarge, [])
      case _ => Fail(StatusInternalServerError, Internal, [])
  }

  // ---------------------------------------------------------------- missing fields

  predicate IsMissingVocabField(packId: string, image: string, name: string, translation: string, f: string)
  {
    || (f == "pack_id" && packId == "") || (f == "image" && image == "")
    || (f == "name" && name == "") || (f == "translation" && translation == "")
  }

  function VocabFieldRank(f: string): int
  {
    if f == "pack_id" then 0 else if f == "image" then 1 else if f == "name" then 2 else 3
  }

  lemma VocabFieldRanks()
    ensures VocabFieldRank("pack_id") == 0 && VocabFieldRank("image") == 1
    ensures VocabFieldRank("name") == 2 && VocabFieldRank("translation") == 3
  {
  }

  /** `fields` lists exactly the missing fields, each once, in the order pack_id, image, name, translation. */
  ghost predicate ListsMissingVocabFields(packId: string, image: string, name: string, translation: string, fields: seq<string>)
  {
    && (forall f :: f in fields <==> IsMissingVocabField(packId, image, name, translation, f))
    && StrictlyRanked(fields, VocabFieldRank)
  }

  /** The `missing` slice of CreateVocabHandler; translation is required too. */
  method MissingVocabFields(packId: string, image: string, name: string, translation: string) returns (missing: seq<string>)
    ensures ListsMissingVocabFields(packId, image, name, translation, missing)
    ensures missing == [] <==> packId != "" && image != "" && name != "" && translation != ""
  {
    missing := [];
    if packId == "" {
      missing := missing + ["pack_id"];
    }
    ghost var afterPack := missing;
    if image == "" {
      missing := missing + ["image"];
    }
    ghost var afterImage := missing;
    if name == "" {
      missing := missing + ["name"];
    }
    ghost var afterName := missing;
    if translation == "" {
      missing := missing + ["translation"];
    }
    // Each field appended ranks above the ones before it.
    assert StrictlyRanked(missing, VocabFieldRank) by {
      VocabFieldRanks();
      if packId == "" {
        AppendRanked([], VocabFieldRank, "pack_id");
      }
      if image == "" {
        AppendRanked(afterPack, VocabFieldRank, "image");
      }
      if name == "" {
        AppendRanked(afterImage, VocabFieldRank, "name");
      }
      if translation == "" {
        AppendRanked(afterName, VocabFieldRank, "translation");
      }
    }
  }

  lemma MissingVocabFieldsDetermined(packId: string, image: string, name: string, translation: string, a: seq<string>, b: seq<string>)
    requires ListsMissingVocabFields(packId, image, name, translation, a)
    requires ListsMissingVocabFields(packId, image, name, translation, b)
    ensures a == b
  {
    RankedUnique(a, b, VocabFieldRank);
  }

  // ---------------------------------------------------------------- CreateVocabHandler

  /** CreateVocabHandler. The file is written before the form values, the pack
      and the duplicate key are checked, so a request those checks reject still
      leaves its file behind. `saved` is what UploadImage returned once the
      gates pass, and `stored` the name of the file it wrote on success.
      `vocabKeyOf` stands for MakeVocabKeyByPackID, whose definition is not
      part of this model. */
  method CreateVocabHandler(st: Store, dir: ImageDir, req: CreateVocabRequest, upload: Upload,
                            detect: seq<byte> -> string, fault: DiskFault,
                            vocabKeyOf: (string, string) -> string, newId: string, columnFound: bool)
    returns (reply: Reply<Vocab>, ghost stored: Option<string>, ghost saved: Option<Result<string, UploadError>>)
    modifies st, dir
    ensures stored.Some? ==>
      var packId := TrimSpace(req.packId);
      var name := TrimSpace(req.name);
      var translation := TrimSpace(req.translation);
      var image := PublicPrefix + stored.value;
      if packId == "" || name == "" || translation == "" then
        && reply.Fail? && reply.status == StatusBadRequest && reply.code == MissingFields
        && ListsMissingVocabFields(packId, image, name, translation, reply.fields)
      else if old(st.GetPackByID(packId)).None? then
        reply == Fail(StatusBadRequest, InvalidPack, [packId])
      else if old(st.VocabExistsByKey(vocabKeyOf(packId, name))) then
        reply == Fail(StatusConflict, DuplicateVocab, [name])
      else
        && reply == Done(StatusCreated, Vocab(newId, image, name, translation, packId))
        && st.vocabs == old(st.vocabs) + [Project(reply.data, st.hasVocabTranslation)]
    ensures st.languages == old(st.languages) && st.packs == old(st.packs)
    ensures reply.Fail? ==> st.vocabs == old(st.vocabs)
    ensures reply.Fail? ==> st.probedSchema == old(st.probedSchema) && st.hasVocabTranslation == old(st.hasVocabTranslation)
    ensures reply.Done? ==> st.probedSchema && st.hasVocabTranslation == (if old(st.probedSchema) then old(st.hasVocabTranslation) else columnFound)
    ensures !PassesUploadGates(req, upload, detect) ==>
      reply == UploadGate(req, upload, detect).value && stored.None? && dir.files == old(dir.files)
    ensures saved.Some? <==> PassesUploadGates(req, upload, detect)
    ensures saved.Some? ==>
      && UploadOutcome(old(dir.files), dir.files, TrimSpace(req.name), req.file.filename, detect(upload.head.bytes),
                       upload.head.bytes, upload.rest, upload.restError, fault, saved.value)
      && (saved.value.Failure? ==> stored.None? && reply == UploadFailureReply(saved.value.error))
      && (saved.value.Success? ==> stored.Some? && saved.value.value == PublicPrefix + stored.value)
    ensures PassesUploadGates(req, upload, detect) && fault == NoDiskFault && upload.restError.None?
            && ExtensionFor(req.file.filename, detect(upload.head.bytes)).Success?
            ==> stored.Some?
    ensures stored.Some? ==>
      && PassesUploadGates(req, upload, detect)
      && stored.value !in old(dir.files)
      && dir.files == old(dir.files)[stored.value := upload.head.bytes + upload.rest]
  {
    var url;
    url, saved := StoreUpload(dir, req, upload, detect, fault);
    if url.Failure? {
      return url.error, None, saved;
    }
    stored := Some(FileOfReference(url.value));
    reply := SaveVocab(st, TrimSpace(req.packId), url.value, TrimSpace(req.name), TrimSpace(req.translation),
                       vocabKeyOf, newId, columnFound);
  }

  /** The first half of CreateVocabHandler: the checks before the upload, then
      UploadImage under the trimmed name. Success carries the public reference;
      `saved` is what UploadImage returned, None when a gate rejected the request. */
  method StoreUpload(dir: ImageDir, req: CreateVocabRequest, upload: Upload, detect: seq<byte> -> string,
                     fault: DiskFault)
    returns (url: Result<string, Reply<Vocab>>, ghost saved: Option<Result<string, UploadError>>)
    modifies dir
    ensures saved.Some? <==> PassesUploadGates(req, upload, detect)
    ensures saved.None? ==>
      url == Failure(UploadGate(req, upload, detect).value) && dir.files == old(dir.files)
    ensures saved.Some? ==>
      && UploadOutcome(old(dir.files), dir.files, TrimSpace(req.name), req.file.filename, detect(upload.head.bytes),
                       upload.head.bytes, upload.rest, upload.restError, fault, saved.value)
      && url == if saved.value.Failure? then Failure(UploadFailureReply(saved.value.error)) else Success(saved.value.value)
    ensures PassesUploadGates(req, upload, detect) && fault == NoDiskFault && upload.restError.None?
            && ExtensionFor(req.file.filename, detect(upload.head.bytes)).Success?
            ==> url.Success?
    ensures url.Success? ==>
      && PassesUploadGates(req, upload, detect)
      && HasPrefix(url.value, PublicPrefix)
      && FileOfReference(url.value) !in old(dir.files)
      && dir.files == old(dir.files)[FileOfReference(url.value) := upload.head.bytes + upload.rest]
  {
    var gate := UploadGate(req, upload, detect);
    if gate.Some? {
      return Failure(gate.value), None;
    }
    var head := upload.head.bytes;
    ghost var before := dir.files;
    var r := dir.UploadImage(TrimSpace(req.name), req.file.filename, detect(head), head, |head|,
                             upload.rest, upload.restError, fault);
    assert head[..|head|] == head;
    saved := Some(r);
    if fault == NoDiskFault && upload.restError.None? {
      UploadWithoutFaultSucceeds(before, dir.files, TrimSpace(req.name), req.file.filename, detect(head),
                                 head, upload.rest, upload.restError, fault, r);
    }
    url := if r.Failure? then Failure(UploadFailureReply(r.error)) else Success(r.value);
  }

  /** The rest of CreateVocabHandler once the image is stored: the form
      values, the pack, the duplicate key, then the insert. */
  method SaveVocab(st: Store, packId: string, image: string, name: string, translation: string,
                   vocabKeyOf: (string, string) -> string, newId: string, columnFound: bool)
    returns (reply: Reply<Vocab>)
    modifies st
    ensures st.languages == old(st.languages) && st.packs == old(st.packs)
    ensures reply.Fail? ==> st.vocabs == old(st.vocabs)
    ensures reply.Fail? ==> st.probedSchema == old(st.probedSchema) && st.hasVocabTranslation == old(st.hasVocabTranslation)
    ensures reply.Done? ==> st.probedSchema && st.hasVocabTranslation == (if old(st.probedSchema) then old(st.hasVocabTranslation) else columnFound)
    ensures
      if packId == "" || image == "" || name == "" || translation == "" then
        && reply.Fail? && reply.status == StatusBadRequest && reply.code == MissingFields
        && ListsMissingVocabFields(packId, image, name, translation, reply.fields)
      else if old(st.GetPackByID(packId)).None? then
        reply == Fail(StatusBadRequest, InvalidPack, [packId])
      else if old(st.VocabExistsByKey(vocabKeyOf(packId, name))) then
        reply == Fail(StatusConflict, DuplicateVocab, [name])
      else
        && reply == Done(StatusCreated, Vocab(newId, image, name, translation, packId))
        && st.vocabs == old(st.vocabs) + [Project(reply.data, st.hasVocabTranslation)]
  {
    var missing := MissingVocabFields(packId, image, name, translation);
    if |missing| > 0 {
      return Fail(StatusBadRequest, MissingFields, missing);
    }
    if st.GetPackByID(packId).None? {
      return Fail(StatusBadRequest, InvalidPack, [packId]);
    }
    var vocabKey := vocabKeyOf(packId, name);
    if st.VocabExistsByKey(vocabKey) {
      return Fail(StatusConflict, DuplicateVocab, [name]);
    }
    var v := Vocab(newId, image, name, translation, packId);
    st.CreateVocab(v, columnFound);
    reply := Done(StatusCreated, v);
  }

  // ---------------------------------------------------------------- flashcards: parameters

  /** The `limit` query value: 20 unless it reads as a positive integer, which
      is then capped at 100. */
  function LimitParam(s: string): (limit: int)
    ensures 1 <= limit <= 100
    ensures Atoi(s).Some? && Atoi(s).value > 0 ==> limit == if Atoi(s).value > 100 then 100 else Atoi(s).value
    ensures !(Atoi(s).Some? && Atoi(s).value > 0) ==> limit == 20
  {
    var limit := 20;
    if s == "" then limit
    else match Atoi(s)
      case Some(n) => if n > 0 then (if n > 100 then 100 else n) else limit
      case None => limit
  }

  /** A limit between 1 and 100 written in decimal is taken as it is. */
  lemma LimitParamOfDecimal(n: nat)
    requires 1 <= n <= 100
    ensures LimitParam(NatToString(n)) == n
  {
    AtoiOfNatToString(n);
  }

  /** A pack id as the list keeps it: non-empty and already trimmed. */
  predicate IsCleanId(p: string)
  {
    p != "" && TrimSpace(p) == p
  }

  lemma TrimmedIdIsClean(s: string)
    requires TrimSpace(s) != ""
    ensures IsCleanId(TrimSpace(s))
  {
    TrimEnds(s, IsGoSpace);
    TrimKeepsTrimmed(TrimSpace(s), IsGoSpace);
  }

  /** The pieces of the `pack_ids` list, trimmed, without the empty ones, in order. */
  function PackIdList(parts: seq<string>): (ids: seq<string>)
    ensures |ids| <= |parts|
  {
    if parts == [] then []
    else
      var p := TrimSpace(parts[0]);
      var rest := PackIdList(parts[1..]);
      if p != "" then [p] + rest else rest
  }

  /** Every id the list keeps is non-empty and already trimmed. */
  lemma {:induction false} PackIdListIsClean(parts: seq<string>)
    ensures forall i :: 0 <= i < |PackIdList(parts)| ==> IsCleanId(PackIdList(parts)[i])
  {
    if parts != [] {
      PackIdListIsClean(parts[1..]);
      if TrimSpace(parts[0]) != "" {
        TrimmedIdIsClean(parts[0]);
      }
    }
  }

  /** The `packs` loop of GetFlashcardsHandler. */
  method ParsePackIds(csv: string) returns (ids: seq<string>)
    ensures ids == PackIdList(Split(csv, ','))
  {
    var parts := Split(csv, ',');
    ids := [];
    for i := 0 to |parts|
      invariant ids == PackIdList(parts[..i])
    {
      PackIdListPrefixStep(parts, i);
      var p := TrimSpace(parts[i]);
      if p != "" {
        ids := ids + [p];
      }
    }
    assert parts[..|parts|] == parts;
  }

  lemma PackIdListPrefixStep(parts: seq<string>, i: nat)
    requires i < |parts|
    ensures TrimSpace(parts[i]) != "" ==> PackIdList(parts[..i + 1]) == PackIdList(parts[..i]) + [TrimSpace(parts[i])]
    ensures TrimSpace(parts[i]) == "" ==> PackIdList(parts[..i + 1]) == PackIdList(parts[..i])
  {
    assert parts[..i + 1] == parts[..i] + [parts[i]];
    PackIdListSnoc(parts[..i], parts[i]);
  }

  /** PackIdList takes the parts one at a time, so a part added at the end
      contributes at the end. */
  lemma {:induction false} PackIdListSnoc(parts: seq<string>, p: string)
    ensures PackIdList(parts + [p]) == PackIdList(parts) + (if TrimSpace(p) != "" then [TrimSpace(p)] else [])
  {
    if parts != [] {
      assert (parts + [p])[1..] == parts[1..] + [p];
      PackIdListSnoc(parts[1..], p);
    }
  }

  lemma {:induction false} PackIdListOfClean(ids: seq<string>)
    requires forall i :: 0 <= i < |ids| ==> IsCleanId(ids[i])
    ensures PackIdList(ids) == ids
  {
    if ids != [] {
      PackIdListOfClean(ids[1..]);
      assert ids == [ids[0]] + ids[1..];
    }
  }

  /** Ids that are non-empty, trimmed and free of ',' come back from their
      comma-joined list in order. */
  lemma PackIdsRoundTrip(ids: seq<string>)
    requires forall i :: 0 <= i < |ids| ==> IsCleanId(ids[i]) && ',' !in ids[i]
    ensures PackIdList(Split(Join(ids, ','), ',')) == ids
  {
    if ids != [] {
      SplitOfJoin(ids, ',');
    }
    PackIdListOfClean(ids);
  }

  /** The pack ids a flashcard query asks for: none for a blank list, else
      the trimmed non-empty pieces between the commas. */
  function RequestedPackIds(raw: string): (ids: seq<string>)
    ensures TrimSpace(raw) == "" ==> ids == []
    ensures forall i :: 0 <= i < |ids| ==> IsCleanId(ids[i])
  {
    var csv := TrimSpace(raw);
    if csv == "" then []
    else
      PackIdListIsClean(Split(csv, ','));
      PackIdList(Split(csv, ','))
  }

  /** Every requested id names a pack. */
  predicate AllPacksKnown(st: Store, ids: seq<string>)
    reads st
  {
    forall k :: 0 <= k < |ids| ==> st.GetPackByID(ids[k]).Some?
  }

  /** `ids[k]` is the first requested id that names no pack. */
  predicate FirstUnknownAt(st: Store, ids: seq<string>, k: int)
    reads st
  {
    && 0 <= k < |ids| && st.GetPackByID(ids[k]).None?
    && forall j :: 0 <= j < k ==> st.GetPackByID(ids[j]).Some?
  }

  /** The validation loop over the requested packs: the index of the first id
      that names no pack, if any. */
  method FirstUnknownPack(st: Store, ids: seq<string>) returns (unknown: Option<nat>)
    ensures unknown.None? <==> AllPacksKnown(st, ids)
    ensures unknown.Some? ==> FirstUnknownAt(st, ids, unknown.value)
  {
    var i := 0;
    while i < |ids|
      invariant 0 <= i <= |ids|
      invariant forall k :: 0 <= k < i ==> st.GetPackByID(ids[k]).Some?
    {
      if st.GetPackByID(ids[i]).None? {
        return Some(i);
      }
      i := i + 1;
    }
    return None;
  }

  // ---------------------------------------------------------------- flashcards: selection

  function Min(a: int, b: int): int { if a <= b then a else b }

  /** rand.Shuffle over the listed vocabs: for i from the last index down to 1,
      swap element i with an element at j in [0, i]. `draw` stands for the
      random source. */
  method Shuffle(a: array<Vocab>, draw: nat -> nat)
    modifies a
    ensures multiset(a[..]) == multiset(old(a[..]))
  {
    var i := a.Length - 1;
    while i > 0
      invariant i < a.Length
      invariant multiset(a[..]) == multiset(old(a[..]))
      decreases i
    {
      var j := draw(i) % (i + 1);
      a[i], a[j] := a[j], a[i];
      i := i - 1;
    }
  }

  /** Shuffle, then keep at most `limit`: the cards drawn are min(N, limit) of
      the listed vocabs, none used more often than it was listed. */
  method SelectFlashcards(vocabs: seq<Vocab>, limit: nat, draw: nat -> nat) returns (selected: seq<Vocab>)
    ensures |selected| == Min(|vocabs|, limit)
    ensures multiset(selected) <= multiset(vocabs)
  {
    var a := new Vocab[|vocabs|](i requires 0 <= i < |vocabs| => vocabs[i]);
    assert a[..] == vocabs;
    Shuffle(a, draw);
    selected := a[..];
    if |selected| > limit {
      assert selected == selected[..limit] + selected[limit..];
      selected := selected[..limit];
    }
  }

  datatype Flashcard = Flashcard(id: string, image: string, name: string, packName: string)

  /** The card for a vocab: its id, image and name, and the name of its pack, or "". */
  function CardFor(st: Store, v: Vocab): (card: Flashcard)
    reads st
    ensures card.id == v.id && card.image == v.image && card.name == v.name
    ensures st.GetPackByID(v.packId).Some? ==> card.packName == st.GetPackByID(v.packId).value.name
    ensures st.GetPackByID(v.packId).None? ==> card.packName == ""
  {
    var pack := st.GetPackByID(v.packId);
    Flashcard(v.id, v.image, v.name, if pack.Some? then pack.value.name else "")
  }

  /** The `cards` loop: one card per selected vocab, by index. */
  method BuildCards(st: Store, vocabs: seq<Vocab>) returns (cards: seq<Flashcard>)
    ensures |cards| == |vocabs|
    ensures forall i :: 0 <= i < |vocabs| ==> cards[i] == CardFor(st, vocabs[i])
  {
    var slots := new Flashcard[|vocabs|];
    for i := 0 to |vocabs|
      invariant forall k :: 0 <= k < i ==> slots[k] == CardFor(st, vocabs[k])
    {
      var v := vocabs[i];
      var pack := st.GetPackByID(v.packId);
      slots[i] := Flashcard(v.id, v.image, v.name, if pack.Some? then pack.value.name else "");
    }
    cards := slots[..];
  }

  // ---------------------------------------------------------------- GetFlashcardsHandler

  /** The query parameters user_id, lang_id, pack_ids and limit, as sent. */
  datatype FlashcardQuery = FlashcardQuery(userId: string, langId: string, packIds: string, limit: string)

  /** The vocabs a listing of the store yields, as a multiset: none without a connection. */
  ghost function Listed(st: Store, userId: string, langId: string, ids: seq<string>): multiset<Vocab>
    reads st
  {
    if st.connected then multiset(OwnerRows(st.vocabs, st.packs, userId, langId, ids, st.hasVocabTranslation))
    else multiset{}
  }

  /** The cards made from `selected`, one per vocab, by index. */
  ghost predicate CardsOf(st: Store, cards: seq<Flashcard>, selected: seq<Vocab>)
    reads st
  {
    |cards| == |selected| && forall i :: 0 <= i < |selected| ==> cards[i] == CardFor(st, selected[i])
  }

  /** The tail of GetFlashcardsHandler once the parameters are valid: list,
      shuffle, keep `limit`, make the cards. */
  method DrawCards(st: Store, userId: string, langId: string, ids: seq<string>, limit: nat,
                   columnFound: bool, draw: nat -> nat)
    returns (cards: seq<Flashcard>, ghost selected: seq<Vocab>)
    modifies st
    ensures st.languages == old(st.languages) && st.packs == old(st.packs) && st.vocabs == old(st.vocabs)
    ensures st.connected ==> st.probedSchema && st.hasVocabTranslation == (if old(st.probedSchema) then old(st.hasVocabTranslation) else columnFound)
    ensures !st.connected ==> st.probedSchema == old(st.probedSchema) && st.hasVocabTranslation == old(st.hasVocabTranslation)
    ensures |selected| == Min(|Listed(st, userId, langId, ids)|, limit)
    ensures multiset(selected) <= Listed(st, userId, langId, ids)
    ensures CardsOf(st, cards, selected)
  {
    var vocabs := st.ListVocabs(userId, langId, ids, columnFound);
    assert multiset(vocabs) == Listed(st, userId, langId, ids);
    if |vocabs| == 0 {
      return [], [];
    }
    var sel := SelectFlashcards(vocabs, limit, draw);
    cards := BuildCards(st, sel);
    selected := sel;
  }

  /** The checks GetFlashcardsHandler makes before it lists anything, in its
      order: the two required parameters, the language, the requested packs.
      `ids` is the list of requested pack ids. */
  method CheckFlashcardQuery(st: Store, q: FlashcardQuery)
    returns (rejection: Option<Reply<seq<Flashcard>>>, ids: seq<string>)
    ensures
      var userId := TrimSpace(q.userId);
      var langId := TrimSpace(q.langId);
      if userId == "" || langId == "" then
        rejection == Some(Fail(StatusBadRequest, MissingFields,
                               (if userId == "" then ["user_id"] else []) + (if langId == "" then ["lang_id"] else [])))
      else if !IsListed(st.LanguagesList(), langId) then
        rejection == Some(Fail(StatusBadRequest, InvalidLanguage, [langId]))
      else if !AllPacksKnown(st, RequestedPackIds(q.packIds)) then
        exists k :: FirstUnknownAt(st, ids, k) && rejection == Some(Fail(StatusBadRequest, InvalidPacks, [ids[k]]))
      else
        rejection.None?
    ensures rejection.None? || rejection.value.code == InvalidPacks ==> ids == RequestedPackIds(q.packIds)
  {
    ids := [];
    var userId := TrimSpace(q.userId);
    var langId := TrimSpace(q.langId);
    if userId == "" || langId == "" {
      var miss := (if userId == "" then ["user_id"] else []) + (if langId == "" then ["lang_id"] else []);
      return Some(Fail(StatusBadRequest, MissingFields, miss)), [];
    }
    var langs := st.LanguagesList();
    var ok := LanguageListed(langs, langId);
    if !ok {
      return Some(Fail(StatusBadRequest, InvalidLanguage, [langId])), [];
    }
    var csv := TrimSpace(q.packIds);
    if csv != "" {
      ids := ParsePackIds(csv);
      var unknown := FirstUnknownPack(st, ids);
      if unknown.Some? {
        assert FirstUnknownAt(st, ids, unknown.value);
        return Some(Fail(StatusBadRequest, InvalidPacks, [ids[unknown.value]])), ids;
      }
    }
    assert ids == RequestedPackIds(q.packIds);
    return None, ids;
  }

  /** GetFlashcardsHandler: the required parameters, the language, the
      requested packs, then up to `limit` shuffled cards. `selected` names the
      vocabs the cards were made from. */
  method GetFlashcardsHandler(st: Store, q: FlashcardQuery, columnFound: bool, draw: nat -> nat)
    returns (reply: Reply<seq<Flashcard>>, ghost selected: seq<Vocab>)
    modifies st
    ensures st.languages == old(st.languages) && st.packs == old(st.packs) && st.vocabs == old(st.vocabs)
    ensures reply.Fail? || !st.connected ==> st.probedSchema == old(st.probedSchema) && st.hasVocabTranslation == old(st.hasVocabTranslation)
    ensures reply.Done? && st.connected ==> st.probedSchema && st.hasVocabTranslation == (if old(st.probedSchema) then old(st.hasVocabTranslation) else columnFound)
    ensures
      var userId := TrimSpace(q.userId);
      var langId := TrimSpace(q.langId);
      var ids := RequestedPackIds(q.packIds);
      if userId == "" || langId == "" then
        reply == Fail(StatusBadRequest, MissingFields,
                      (if userId == "" then ["user_id"] else []) + (if langId == "" then ["lang_id"] else []))
      else if !IsListed(old(st.LanguagesList()), langId) then
        reply == Fail(StatusBadRequest, InvalidLanguage, [langId])
      else if !old(AllPacksKnown(st, ids)) then
        exists k :: old(FirstUnknownAt(st, ids, k)) && reply == Fail(StatusBadRequest, InvalidPacks, [ids[k]])
      else
        && reply.Done? && reply.status == StatusOK
        && |selected| == Min(|Listed(st, userId, langId, ids)|, LimitParam(TrimSpace(q.limit)))
        && multiset(selected) <= Listed(st, userId, langId, ids)
        && CardsOf(st, reply.data, selected)
  {
    var rejection, ids := CheckFlashcardQuery(st, q);
    if rejection.Some? {
      return rejection.value, [];
    }
    var limit := LimitParam(TrimSpace(q.limit));
    var cards;
    cards, selected := DrawCards(st, TrimSpace(q.userId), TrimSpace(q.langId), ids, limit, columnFound, draw);
    reply := Done(StatusOK, cards);
  }
}
