/** The document upload and the upgrade of an account to `premium`. */
module UserController {

  import opened Wrappers
  import opened JsBuiltins
  import opened UsersModel
  import opened Http
  import UserStore

  /** The fields of an uploaded file that the handler reads. */
  datatype UploadedFile = UploadedFile(originalname: string, path: string)

  /** `req.files.map(file => ({ name: file.originalname, reference: file.path }))`. */
  function FileDocuments(files: seq<UploadedFile>): (docs: seq<Document>)
    ensures |docs| == |files|
    ensures forall i :: 0 <= i < |files| ==> docs[i] == Document(files[i].originalname, files[i].path)
  {
    if |files| == 0 then []
    else [Document(files[0].originalname, files[0].path)] + FileDocuments(files[1..])
  }

  /**
   * `uploadUserDocuments` after Multer has stored the files: 404 for an unknown
   * id; otherwise the files' documents are appended to the account's list.
   */
  function UploadStep(db: Db, uid: Id, files: seq<UploadedFile>): (res: (Reply, Db))
    ensures res.0.DocumentsJson? <==> uid in db.users
    ensures uid !in db.users ==> res == (Json(404, "User not found"), db)
    ensures uid in db.users ==>
      res.1.users.Keys == db.users.Keys && res.1.nextId == db.nextId &&
      res.0.documents == res.1.users[uid].documents &&
      |res.0.documents| == |db.users[uid].documents| + |files|
  {
    if uid !in db.users then (Json(404, "User not found"), db)
    else
      var docs := db.users[uid].documents + FileDocuments(files);
      (DocumentsJson(docs), Db(db.users[uid := db.users[uid].(documents := docs)], db.nextId))
  }

  /**
   * An upload to an unknown id changes nothing. An upload to a known id keeps
   * the old list as a prefix, adds one document per file in upload order,
   * answers with the new list, and changes no other field and no other record.
   */
  lemma UploadAppends(db: Db, uid: Id, files: seq<UploadedFile>)
    ensures uid !in db.users ==> UploadStep(db, uid, files) == (Json(404, "User not found"), db)
    ensures uid in db.users ==>
      var (reply, db') := UploadStep(db, uid, files);
      var old_docs := db.users[uid].documents;
      var new_docs := db'.users[uid].documents;
      && reply == DocumentsJson(new_docs)
      && |new_docs| == |old_docs| + |files|
      && new_docs[..|old_docs|] == old_docs
      && (forall i :: 0 <= i < |files| ==> new_docs[|old_docs| + i] == Document(files[i].originalname, files[i].path))
      && db'.users[uid] == db.users[uid].(documents := new_docs)
      && db'.nextId == db.nextId && db'.users.Keys == db.users.Keys
      && (forall j :: j in db.users && j != uid ==> db'.users[j] == db.users[j])
  {
  }

  /** Uploading keeps the collection's invariant. */
  lemma UploadPreservesValid(db: Db, uid: Id, files: seq<UploadedFile>)
    requires Valid(db)
    ensures Valid(UploadStep(db, uid, files).1)
  {
    if uid in db.users {
      SavePreservesValid(db, db.users[uid].(documents := db.users[uid].documents + FileDocuments(files)));
    }
  }

  /** The documents `changeUserToPremium` requires, by name. */
  const RequiredDocs: seq<string> := ["Identificación", "Comprobante de domicilio", "Comprobante de estado de cuenta"]

  /** `user.documents.map(doc => doc.name)`. */
  function DocumentNames(docs: seq<Document>): (names: seq<string>)
    ensures |names| == |docs|
    ensures forall i :: 0 <= i < |docs| ==> names[i] == docs[i].name
  {
    if |docs| == 0 then [] else [docs[0].name] + DocumentNames(docs[1..])
  }

  /** Some document in the list has the name `name`. */
  ghost predicate HasDocNamed(docs: seq<Document>, name: string)
  {
    exists j :: 0 <= j < |docs| && docs[j].name == name
  }

  /** `requiredDocs.every(doc => userDocs.includes(doc))`: every required name occurs among the documents. */
  function HasAllDocs(docs: seq<Document>): (b: bool)
    ensures b <==> forall i :: 0 <= i < |RequiredDocs| ==> HasDocNamed(docs, RequiredDocs[i])
  {
    var names := DocumentNames(docs);
    Every(RequiredDocs, (n: string) => Includes(names, n))
  }

  /**
   * `changeUserToPremium`: 404 for an unknown id, 400 when a required document
   * is missing, and otherwise the role becomes `premium`.
   */
  function PremiumStep(db: Db, uid: Id): (res: (Reply, Db))
    ensures uid !in db.users ==> res == (Json(404, "User not found"), db)
    ensures res.0 != Json(200, "User upgraded to premium") ==> res.1 == db
    ensures res.0 == Json(200, "User upgraded to premium") ==>
      uid in db.users && res.1.users.Keys == db.users.Keys && res.1.users[uid].rol == PremiumRole
  {
    if uid !in db.users then (Json(404, "User not found"), db)
    else if !HasAllDocs(db.users[uid].documents) then (Json(400, "User has not uploaded all required documents"), db)
    else (Json(200, "User upgraded to premium"), Db(db.users[uid := db.users[uid].(rol := PremiumRole)], db.nextId))
  }

  /**
   * The upgrade happens exactly when all three required names occur among the
   * account's documents; it then sets the role to `premium` whatever it was,
   * `admin` included, and changes nothing else. Otherwise nothing changes.
   */
  lemma PremiumExactlyWithDocs(db: Db, uid: Id)
    requires uid in db.users
    ensures var (reply, db') := PremiumStep(db, uid);
      var docs := db.users[uid].documents;
      && (reply == Json(200, "User upgraded to premium") <==>
           HasDocNamed(docs, "Identificación") && HasDocNamed(docs, "Comprobante de domicilio") &&
           HasDocNamed(docs, "Comprobante de estado de cuenta"))
      && (reply == Json(200, "User upgraded to premium") ==>
           db' == Db(db.users[uid := db.users[uid].(rol := PremiumRole)], db.nextId))
      && (reply != Json(200, "User upgraded to premium") ==>
           reply == Json(400, "User has not uploaded all required documents") && db' == db)
  {
    var docs := db.users[uid].documents;
    if HasAllDocs(docs) {
      assert HasDocNamed(docs, RequiredDocs[0]);
      assert HasDocNamed(docs, RequiredDocs[1]);
      assert HasDocNamed(docs, RequiredDocs[2]);
    } else {
      var i :| 0 <= i < |RequiredDocs| && !HasDocNamed(docs, RequiredDocs[i]);
      assert i == 0 || i == 1 || i == 2;
    }
  }

  /** The upgrade keeps the collection's invariant. */
  lemma PremiumPreservesValid(db: Db, uid: Id)
    requires Valid(db)
    ensures Valid(PremiumStep(db, uid).1)
  {
    if uid in db.users {
      SavePreservesValid(db, db.users[uid].(rol := PremiumRole));
    }
  }

  /** Uploading never takes eligibility away: the list only grows. */
  lemma UploadKeepsEligibility(db: Db, uid: Id, files: seq<UploadedFile>)
    requires uid in db.users && HasAllDocs(db.users[uid].documents)
    ensures HasAllDocs(UploadStep(db, uid, files).1.users[uid].documents)
  {
    var docs := db.users[uid].documents;
    var docs' := UploadStep(db, uid, files).1.users[uid].documents;
    forall i | 0 <= i < |RequiredDocs|
      ensures HasDocNamed(docs', RequiredDocs[i])
    {
      var j :| 0 <= j < |docs| && docs[j].name == RequiredDocs[i];
      assert docs'[j] == docs[j];
    }
  }

  /** Uploading the three required documents makes any account eligible for the upgrade. */
  lemma UploadRequiredThenPremium(db: Db, uid: Id, refs: seq<string>)
    requires uid in db.users && |refs| == 3
    ensures var files := [UploadedFile(RequiredDocs[0], refs[0]), UploadedFile(RequiredDocs[1], refs[1]),
                          UploadedFile(RequiredDocs[2], refs[2])];
      var db' := UploadStep(db, uid, files).1;
      PremiumStep(db', uid).0 == Json(200, "User upgraded to premium") &&
      PremiumStep(db', uid).1.users[uid].rol == PremiumRole
  {
    var files := [UploadedFile(RequiredDocs[0], refs[0]), UploadedFile(RequiredDocs[1], refs[1]),
                  UploadedFile(RequiredDocs[2], refs[2])];
    var db' := UploadStep(db, uid, files).1;
    var docs := db.users[uid].documents;
    var docs' := db'.users[uid].documents;
    assert docs' == docs + FileDocuments(files);
    forall i | 0 <= i < |RequiredDocs|
      ensures HasDocNamed(docs', RequiredDocs[i])
    {
      assert docs'[|docs| + i].name == RequiredDocs[i];
    }
  }

  /** `uploadUserDocuments` on the collection object (`updateOne` with the extended list). */
  method UploadUserDocuments(store: UserStore.Users, uid: Id, files: seq<UploadedFile>) returns (r: Reply)
    requires store.Valid()
    modifies store
    ensures store.Valid()
    ensures (r, store.Snapshot()) == UploadStep(old(store.Snapshot()), uid, files)
  {
    UploadPreservesValid(store.Snapshot(), uid, files);
    var user := store.FindById(uid);
    if user.None? {
      return Json(404, "User not found");
    }
    var docs := user.value.documents + FileDocuments(files);
    store.Save(user.value.(documents := docs));
    r := DocumentsJson(docs);
  }

  /** `changeUserToPremium` on the collection object. */
  method ChangeUserToPremium(store: UserStore.Users, uid: Id) returns (r: Reply)
    requires store.Valid()
    modifies store
    ensures store.Valid()
    ensures (r, store.Snapshot()) == PremiumStep(old(store.Snapshot()), uid)
  {
    PremiumPreservesValid(store.Snapshot(), uid);
    var user := store.FindById(uid);
    if user.None? {
      return Json(404, "User not found");
    }
    if !HasAllDocs(user.value.documents) {
      return Json(400, "User has not uploaded all required documents");
    }
    store.Save(user.value.(rol := PremiumRole));
    r := Json(200, "User upgraded to premium");
  }
}
