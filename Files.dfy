/**
 * The file orchestrator (file/src/service/file.rs): the key-handle codec,
 * the owner-scoped queries over the `files` table, and the five RPCs.
 *
 * The database reached through `FileService.db` is the field `files`, a
 * sequence of rows in table order. Whether a database call fails, the
 * UUID and the timestamp minted by `encrypt_file`, and the key and nonce
 * drawn from `OsRng` are parameters.
 */
module Files {
  import opened Wrappers
  import opened Base64
  import opened Decimal
  import opened Cipher
  import opened Entity

  // ---------------------------------------------------------------------
  // Status replies
  // ---------------------------------------------------------------------

  /** The `tonic::Status` codes the service answers with. */
  datatype Code = InvalidArgument | NotFound | Internal

  datatype Status = Status(code: Code, message: string)

  /** An RPC's result: a response, an error status, or a panic inside the handler. */
  datatype Reply<T> = Response(value: T) | Failure(status: Status) | Panicked(message: string)

  const NOT_FOUND := Status(NotFound, "File not found")
  const INTERNAL := Status(Internal, "Internal server error")
  const FILE_REQUIRED := Status(InvalidArgument, "File is required")
  const BAD_METHOD := Status(InvalidArgument, "Invalid encryption method")
  const BAD_FORMAT := Status(InvalidArgument, "Invalid encryption key format")
  const BAD_NONCE := Status(InvalidArgument, "Invalid base64 nonce")
  const BAD_KEY := Status(InvalidArgument, "Invalid base64 key")

  // ---------------------------------------------------------------------
  // The key handle: base64(nonce) ++ "::" ++ base64(key)
  // ---------------------------------------------------------------------

  datatype KeyMaterial = KeyMaterial(nonce: seq<byte>, key: seq<byte>)

  /** A "::" starts at index i of h. */
  predicate IsDelimiterAt(h: string, i: int) {
    0 <= i && i + 1 < |h| && h[i] == ':' && h[i + 1] == ':'
  }

  /** The first "::" at or after index i. */
  function DelimiterFrom(h: string, i: nat): (r: Option<nat>)
    requires i <= |h|
    ensures r.Some? ==> i <= r.value && IsDelimiterAt(h, r.value)
    ensures r.Some? ==> forall j :: i <= j < r.value ==> !IsDelimiterAt(h, j)
    ensures r.None? ==> forall j :: i <= j ==> !IsDelimiterAt(h, j)
    decreases |h| - i
  {
    if i + 1 >= |h| then None
    else if h[i] == ':' && h[i + 1] == ':' then Some(i)
    else DelimiterFrom(h, i + 1)
  }

  /** `str::split_once("::")`: the text before and after the first "::". */
  function SplitOnce(h: string): (r: Option<(string, string)>)
    ensures r.Some? ==> h == r.value.0 + "::" + r.value.1
    ensures r.Some? ==> forall j :: j < |r.value.0| ==> !IsDelimiterAt(h, j)
    ensures r.None? ==> forall j :: !IsDelimiterAt(h, j)
  {
    match DelimiterFrom(h, 0)
    case None => None
    case Some(i) =>
      assert h == h[..i] + "::" + h[i + 2..];
      Some((h[..i], h[i + 2..]))
  }

  /** Joining two texts without ':' leaves exactly one "::", between them. */
  lemma OnlyDelimiterBetween(a: string, b: string)
    requires ':' !in a && ':' !in b
    ensures forall j :: IsDelimiterAt(a + "::" + b, j) <==> j == |a|
  {
    var h := a + "::" + b;
    forall j | 0 <= j < |a|
      ensures h[j] != ':'
    {
      assert h[j] == a[j];
    }
    forall j | |a| + 2 <= j < |h|
      ensures h[j] != ':'
    {
      assert h[j] == b[j - |a| - 2];
    }
  }

  /**
   * The `encryption_key` returned by `encrypt_file`. Base64 never emits ':',
   * so the "::" that joins the two encodings is the only one in the handle.
   */
  function EncodeHandle(m: KeyMaterial): (h: string)
    ensures forall j :: IsDelimiterAt(h, j) <==> j == |Base64.Encode(m.nonce)|
  {
    var a, b := Base64.Encode(m.nonce), Base64.Encode(m.key);
    assert !IsEncodingChar(':');
    OnlyDelimiterBetween(a, b);
    a + "::" + b
  }

  /**
   * The handle parsing inside `decrypt_file`: split at the first "::", then
   * decode the nonce, then the key; the first step that fails decides the
   * message. Only a handle that `EncodeHandle` produces is accepted.
   */
  function DecodeHandle(h: string): (r: Result<KeyMaterial, Status>)
    ensures r.Ok? ==> EncodeHandle(r.value) == h
    ensures r.Err? ==> r.error.code == InvalidArgument
    ensures r == Err(BAD_FORMAT) <==> forall j :: !IsDelimiterAt(h, j)
  {
    match SplitOnce(h)
    case None => Err(BAD_FORMAT)
    case Some((n, k)) =>
      match Base64.Decode(n)
      case None => Err(BAD_NONCE)
      case Some(nonce) =>
        match Base64.Decode(k)
        case None => Err(BAD_KEY)
        case Some(key) =>
          EncodeDecode(n);
          EncodeDecode(k);
          Ok(KeyMaterial(nonce, key))
  }

  /** An encoding has no ':', so its first "::" is the one the encoder put there. */
  lemma SplitEncodedHandle(m: KeyMaterial)
    ensures SplitOnce(EncodeHandle(m)) == Some((Base64.Encode(m.nonce), Base64.Encode(m.key)))
  {
    var a, b := Base64.Encode(m.nonce), Base64.Encode(m.key);
    var h := EncodeHandle(m);
    assert IsDelimiterAt(h, |a|);
    var i := DelimiterFrom(h, 0).value;
    assert i == |a|;
    assert h[..i] == a && h[i + 2..] == b;
  }

  /** The handle codec is lossless: decoding an issued handle gives back the nonce and key. */
  lemma HandleRoundTrip(m: KeyMaterial)
    ensures DecodeHandle(EncodeHandle(m)) == Ok(m)
  {
    SplitEncodedHandle(m);
    DecodeEncode(m.nonce);
    DecodeEncode(m.key);
  }

  /**
   * The order of the handle checks once the handle splits at its first "::":
   * a bad nonce segment is reported even when the key segment is bad too;
   * the key segment is checked last.
   */
  lemma HandleErrorOrder(h: string, n: string, k: string)
    requires h == n + "::" + k && forall j :: j < |n| ==> !IsDelimiterAt(h, j)
    ensures DecodeHandle(h) ==
      if Base64.Decode(n).None? then Err(BAD_NONCE)
      else if Base64.Decode(k).None? then Err(BAD_KEY)
      else Ok(KeyMaterial(Base64.Decode(n).value, Base64.Decode(k).value))
  {
    assert IsDelimiterAt(h, |n|);
    var i := DelimiterFrom(h, 0).value;
    assert i == |n|;
    assert h[..i] == n && h[i + 2..] == k;
  }

  /** Empty segments are accepted: "::" is the handle of an empty nonce and an empty key. */
  lemma EmptySegmentsAccepted()
    ensures DecodeHandle("::") == Ok(KeyMaterial([], []))
  {
    HandleRoundTrip(KeyMaterial([], []));
  }

  // ---------------------------------------------------------------------
  // The `files` table and its owner-scoped queries
  // ---------------------------------------------------------------------

  /** `id` is the primary key: no two rows share one. */
  ghost predicate UniqueIds(rows: seq<Model>) {
    forall i, j :: 0 <= i < j < |rows| ==> rows[i].id != rows[j].id
  }

  predicate IdFree(rows: seq<Model>, id: string) {
    forall m :: m in rows ==> m.id != id
  }

  lemma SameIdSameRow(rows: seq<Model>, m1: Model, m2: Model)
    requires UniqueIds(rows) && m1 in rows && m2 in rows && m1.id == m2.id
    ensures m1 == m2
  {
    var i :| 0 <= i < |rows| && rows[i] == m1;
    var j :| 0 <= j < |rows| && rows[j] == m2;
    assert !(i < j) && !(j < i);
  }

  /** `find().filter(id = ? AND user_id = ?).one()`: the first row matching both. */
  function FindOwned(rows: seq<Model>, id: string, userId: string): (r: Option<Model>)
    ensures r.Some? ==> r.value in rows && r.value.id == id && r.value.userId == userId
    ensures r.None? ==> forall m :: m in rows ==> !(m.id == id && m.userId == userId)
  {
    if |rows| == 0 then None
    else if rows[0].id == id && rows[0].userId == userId then Some(rows[0])
    else FindOwned(rows[1..], id, userId)
  }

  /** `find().filter(user_id = ?).all()`: the owner's rows, in table order. */
  function ListOwned(rows: seq<Model>, userId: string): (r: seq<Model>)
    ensures forall m :: m in r <==> m in rows && m.userId == userId
    ensures UniqueIds(rows) ==> UniqueIds(r)
  {
    if |rows| == 0 then []
    else
      var rest := ListOwned(rows[1..], userId);
      assert forall m :: m in rows[1..] ==> m in rows;
      if rows[0].userId == userId then
        assert UniqueIds(rows) ==> forall m :: m in rest ==> m.id != rows[0].id;
        [rows[0]] + rest
      else rest
  }

  /** Deleting by primary key: every row but the one with this id, in order. */
  function RemoveId(rows: seq<Model>, id: string): (r: seq<Model>)
    ensures forall m :: m in r <==> m in rows && m.id != id
    ensures UniqueIds(rows) ==> UniqueIds(r)
  {
    if |rows| == 0 then []
    else
      var rest := RemoveId(rows[1..], id);
      assert forall m :: m in rows[1..] ==> m in rows;
      if rows[0].id == id then rest
      else
        assert UniqueIds(rows) ==> forall m :: m in rest ==> m.id != rows[0].id;
        [rows[0]] + rest
  }

  lemma AppendFreshKeepsUnique(rows: seq<Model>, m: Model)
    requires UniqueIds(rows) && IdFree(rows, m.id)
    ensures UniqueIds(rows + [m])
  {
    var s := rows + [m];
    forall i, j | 0 <= i < j < |s|
      ensures s[i].id != s[j].id
    {
      if j == |rows| {
        assert s[i] in rows;
      }
    }
  }

  /** The public view of each row. */
  function Views(rows: seq<Model>): (vs: seq<FileMetadata>)
    ensures |vs| == |rows| && forall i :: 0 <= i < |rows| ==> vs[i] == ToProto(rows[i])
  {
    seq(|rows|, i requires 0 <= i < |rows| => ToProto(rows[i]))
  }

  /** Owner isolation: another owner's row is never found, though it exists. */
  lemma OwnerIsolation(rows: seq<Model>, m: Model, caller: string)
    requires UniqueIds(rows) && m in rows && m.userId != caller
    ensures FindOwned(rows, m.id, caller) == None
  {
    var r := FindOwned(rows, m.id, caller);
    if r.Some? {
      SameIdSameRow(rows, r.value, m);
    }
  }

  /** A row is listed for a caller exactly when the owner-scoped lookup finds it. */
  lemma ListedIffFound(rows: seq<Model>, m: Model, caller: string)
    requires UniqueIds(rows) && m in rows
    ensures m in ListOwned(rows, caller) <==> FindOwned(rows, m.id, caller) == Some(m)
  {
    var r := FindOwned(rows, m.id, caller);
    if r.Some? {
      SameIdSameRow(rows, r.value, m);
    }
  }

  /** Removing one id leaves every lookup of another id as it was. */
  lemma {:induction false} RemoveKeepsOtherLookups(rows: seq<Model>, id: string, other: string, caller: string)
    requires other != id
    ensures FindOwned(RemoveId(rows, id), other, caller) == FindOwned(rows, other, caller)
  {
    if |rows| > 0 {
      RemoveKeepsOtherLookups(rows[1..], id, other, caller);
      if rows[0].id != id {
        assert RemoveId(rows, id)[1..] == RemoveId(rows[1..], id);
      }
    }
  }

  // ---------------------------------------------------------------------
  // Requests and responses
  // ---------------------------------------------------------------------

  datatype FileBlob = FileBlob(name: string, content: seq<byte>)
  datatype EncryptFileRequest = EncryptFileRequest(userId: string, encryptionMethod: string, file: Option<FileBlob>)
  datatype EncryptFileResponse = EncryptFileResponse(file: FileMetadata, encryptionKey: string)
  datatype DecryptFileRequest = DecryptFileRequest(fileId: string, userId: string, encryptionKey: string)

  /** The cipher `get_cipher` returns for a stored algorithm. */
  function CipherFor(m: EncryptionMethod): (c: Cipher)
    ensures GetCipher(StringValue(m)) == Done(c)
  {
    match m
    case Aes256Gcm => Aes256GcmCipher
    case Aes128Gcm => Aes128GcmCipher
    case ChaCha20Poly1305 => ChaChaCipher
  }

  /** The registry and the enum parser accept the same names, and agree on the cipher. */
  lemma RegistryMatchesEnum(name: string)
    ensures GetCipher(name).Done? <==> FromStr(name).Ok?
    ensures FromStr(name).Ok? ==> GetCipher(name) == Done(CipherFor(FromStr(name).value))
  {
  }

  /** The row `encrypt_file` inserts. */
  function NewRecord(userId: string, blob: FileBlob, m: EncryptionMethod, fileId: string, timestamp: string): (r: Model)
    ensures r.id == fileId && r.userId == userId && r.name == blob.name && r.encryptionMethod == m
    ensures r.createdAt == timestamp && r.updatedAt == timestamp
    ensures AllDigits(r.size) && DigitsValue(r.size) == |blob.content|
    ensures |blob.content| < U64_LIMIT ==> ParseU64(r.size) == Some(|blob.content|)
  {
    ValueOfDecimal(|blob.content|);
    Model(fileId, userId, blob.name, ToDecimal(|blob.content|), m, timestamp, timestamp)
  }

  /** The inserted row, read back through `to_proto`, is the metadata the response carried. */
  lemma StoredViewMatchesResponse(req: EncryptFileRequest, m: EncryptionMethod, fileId: string, timestamp: string)
    requires req.file.Some? && FromStr(req.encryptionMethod) == Ok(m)
    requires |req.file.value.content| < U64_LIMIT
    ensures ToProto(NewRecord(req.userId, req.file.value, m, fileId, timestamp))
      == FileMetadata(fileId, req.file.value.name, |req.file.value.content|, req.encryptionMethod, timestamp, timestamp)
  {
    ParseDecimal(|req.file.value.content|);
  }

  // ---------------------------------------------------------------------
  // The service
  // ---------------------------------------------------------------------

  class FileService {
    /** The `files` table the database connection reaches. */
    var files: seq<Model>
    /** The linked ChaCha20-Poly1305 implementation. */
    const aead: Aead

    ghost predicate Valid()
      reads this
    {
      UniqueIds(files)
    }

    /** `FileService::new`: a service over an existing table. */
    constructor (aead: Aead, rows: seq<Model>)
      requires UniqueIds(rows)
      ensures Valid() && files == rows && this.aead == aead
    {
      this.aead := aead;
      files := rows;
    }

    /**
     * `get_all_files`: every row of the caller, each as its public view; a
     * database error is unwrapped, so it panics.
     */
    function GetAllFiles(userId: string, storeFails: bool): (r: Reply<seq<FileMetadata>>)
      reads this
      ensures storeFails <==> r.Panicked?
      ensures !storeFails ==> r.Response?
      ensures r.Response? ==> forall v :: v in r.value ==> v in Views(files)
      ensures r.Response? ==> r.value == Views(ListOwned(files, userId))
    {
      if storeFails then Panicked("called `Result::unwrap()` on an `Err` value")
      else
        var owned := ListOwned(files, userId);
        assert forall i :: 0 <= i < |owned| ==> owned[i] in files;
        Response(Views(owned))
    }

    /** `get_file`: the caller's row with this id, NotFound when there is none, Internal on a database error. */
    function GetFile(fileId: string, userId: string, storeFails: bool): (r: Reply<FileMetadata>)
      reads this
      ensures storeFails ==> r == Failure(INTERNAL)
      ensures !storeFails ==> (r == Failure(NOT_FOUND) <==> forall m :: m in files ==> !(m.id == fileId && m.userId == userId))
      ensures r.Response? ==> r.value.id == fileId && r.value in Views(files)
      ensures !storeFails && FindOwned(files, fileId, userId).Some? ==>
        r == Response(ToProto(FindOwned(files, fileId, userId).value))
    {
      if storeFails then Failure(INTERNAL)
      else
        match FindOwned(files, fileId, userId)
        case None => Failure(NOT_FOUND)
        case Some(m) =>
          assert exists i :: 0 <= i < |files| && files[i] == m;
          Response(ToProto(m))
    }

    /**
     * `encrypt_file`. The registry runs first, so an unknown algorithm
     * panics before the file is even looked at; a missing file is
     * InvalidArgument. The row is inserted when the database accepts it (it
     * refuses a duplicate primary key), and the response is returned
     * whatever the insert's outcome.
     */
    method EncryptFile(req: EncryptFileRequest, draw: Draw, fileId: string, timestamp: string, insertSucceeds: bool)
      returns (r: Reply<EncryptFileResponse>)
      requires Valid()
      modifies this
      ensures Valid()
      ensures GetCipher(req.encryptionMethod).Panic? ==> r.Panicked? && files == old(files)
      ensures GetCipher(req.encryptionMethod).Done? && req.file.None? ==> r == Failure(FILE_REQUIRED) && files == old(files)
      ensures r.Response? <==> GetCipher(req.encryptionMethod).Done? && req.file.Some?
      ensures r.Response? ==>
        var blob, m := req.file.value, FromStr(req.encryptionMethod).value;
        var sealed := Encrypt(CipherFor(m), aead, draw, blob.content);
        && r.value.file == FileMetadata(fileId, blob.name, |blob.content|, req.encryptionMethod, timestamp, timestamp)
        && r.value.encryptionKey == EncodeHandle(KeyMaterial(sealed.nonce, sealed.key))
        && files == if insertSucceeds && IdFree(old(files), fileId)
                    then old(files) + [NewRecord(req.userId, blob, m, fileId, timestamp)]
                    else old(files)
      ensures r.Response? && insertSucceeds && IdFree(old(files), fileId) && |req.file.value.content| < U64_LIMIT ==>
        GetFile(fileId, req.userId, false) == Response(r.value.file)
    {
      var ec := GetCipher(req.encryptionMethod);
      if ec.Panic? {
        r := Panicked(ec.message);
        return;
      }
      if req.file.None? {
        r := Failure(FILE_REQUIRED);
        return;
      }
      var blob := req.file.value;
      var sealed := Encrypt(ec.value, aead, draw, blob.content);
      var size := |blob.content|;
      var parsed := FromStr(req.encryptionMethod);
      if parsed.Err? {
        r := Failure(BAD_METHOD);
        return;
      }
      RegistryMatchesEnum(req.encryptionMethod);
      var record := NewRecord(req.userId, blob, parsed.value, fileId, timestamp);
      if insertSucceeds && IdFree(files, fileId) {
        AppendFreshKeepsUnique(files, record);
        files := files + [record];
      }
      r := Response(EncryptFileResponse(
        FileMetadata(fileId, blob.name, size, req.encryptionMethod, timestamp, timestamp),
        EncodeHandle(KeyMaterial(sealed.nonce, sealed.key))));
      if insertSucceeds && old(IdFree(files, fileId)) && size < U64_LIMIT {
        var found := FindOwned(files, fileId, req.userId);
        assert record in files;
        SameIdSameRow(files, found.value, record);
        StoredViewMatchesResponse(req, parsed.value, fileId, timestamp);
      }
    }

    /**
     * `decrypt_file`. The owner-scoped lookup comes first (Internal on a
     * database error, NotFound when absent), then the handle is parsed, then
     * the cipher is chosen from the row's stored algorithm. The ciphertext is
     * the empty placeholder `vec![]`.
     */
    function DecryptFile(req: DecryptFileRequest, storeFails: bool): (r: Reply<FileBlob>)
      reads this
      ensures storeFails ==> r == Failure(INTERNAL)
      ensures !storeFails && FindOwned(files, req.fileId, req.userId).None? ==> r == Failure(NOT_FOUND)
      ensures r.Failure? && r.status.code == InvalidArgument ==>
        FindOwned(files, req.fileId, req.userId).Some? && DecodeHandle(req.encryptionKey) == Err(r.status)
      ensures !storeFails && FindOwned(files, req.fileId, req.userId).Some? && DecodeHandle(req.encryptionKey).Err? ==>
        r == Failure(DecodeHandle(req.encryptionKey).error)
      ensures r.Response? ==> r.value.name == FindOwned(files, req.fileId, req.userId).value.name
    {
      if storeFails then Failure(INTERNAL)
      else
        match FindOwned(files, req.fileId, req.userId)
        case None => Failure(NOT_FOUND)
        case Some(file) =>
          var data: seq<byte> := [];
          match DecodeHandle(req.encryptionKey)
          case Err(status) => Failure(status)
          case Ok(km) =>
            match GetCipher(ToString(file.encryptionMethod))
            case Panic(message) => Panicked(message)
            case Done(ec) =>
              match Decrypt(ec, aead, data, km.key, km.nonce)
              case Panic(message) => Panicked(message)
              case Done(content) => Response(FileBlob(file.name, content))
    }

    /**
     * `delete_file`. Only the caller's row with this id is removed; a missing
     * or foreign row is NotFound, a failing lookup or delete is Internal and
     * leaves the table as it was.
     */
    method DeleteFile(fileId: string, userId: string, findFails: bool, deleteFails: bool) returns (r: Reply<()>)
      requires Valid()
      modifies this
      ensures Valid()
      ensures findFails ==> r == Failure(INTERNAL) && files == old(files)
      ensures !findFails && FindOwned(old(files), fileId, userId).None? ==> r == Failure(NOT_FOUND) && files == old(files)
      ensures !findFails && FindOwned(old(files), fileId, userId).Some? ==>
        if deleteFails then r == Failure(INTERNAL) && files == old(files)
        else r == Response(()) && files == RemoveId(old(files), fileId)
      ensures r.Response? ==> GetFile(fileId, userId, false) == Failure(NOT_FOUND)
      ensures forall m :: m in files <==> m in old(files) && (r.Response? ==> m.id != fileId)
    {
      if findFails {
        r := Failure(INTERNAL);
        return;
      }
      var found := FindOwned(files, fileId, userId);
      if found.None? {
        r := Failure(NOT_FOUND);
        return;
      }
      if deleteFails {
        r := Failure(INTERNAL);
        return;
      }
      files := RemoveId(files, fileId);
      r := Response(());
    }
  }

  /**
   * `get_all_files` and `get_file` agree: every listed view is what the
   * owner-scoped lookup answers for its id, and every row of the caller is
   * listed.
   */
  lemma ListingAgreesWithGet(svc: FileService, userId: string)
    requires svc.Valid()
    ensures forall v :: v in svc.GetAllFiles(userId, false).value ==> svc.GetFile(v.id, userId, false) == Response(v)
    ensures forall m :: m in svc.files && m.userId == userId ==> ToProto(m) in svc.GetAllFiles(userId, false).value
  {
    var owned := ListOwned(svc.files, userId);
    var listed := svc.GetAllFiles(userId, false).value;
    assert listed == Views(owned);
    forall v | v in listed
      ensures svc.GetFile(v.id, userId, false) == Response(v)
    {
      var i :| 0 <= i < |listed| && listed[i] == v;
      var m := owned[i];
      assert m in owned;
      ListedIffFound(svc.files, m, userId);
    }
    forall m | m in svc.files && m.userId == userId
      ensures ToProto(m) in listed
    {
      var i :| 0 <= i < |owned| && owned[i] == m;
      assert listed[i] == ToProto(m);
    }
  }

  /** A file that `delete_file` removed is gone for every owner, and every other lookup is unchanged. */
  lemma DeleteIsolated(rows: seq<Model>, id: string, other: string, caller: string)
    ensures FindOwned(RemoveId(rows, id), id, caller) == None
    ensures other != id ==> FindOwned(RemoveId(rows, other), id, caller) == FindOwned(rows, id, caller)
  {
    if other != id {
      RemoveKeepsOtherLookups(rows, other, id, caller);
    }
  }

  /**
   * Decryption is routed by the stored algorithm. For a row found and a
   * handle that parses: an AES row answers the (empty) placeholder
   * ciphertext unchanged; a ChaCha row panics unless the key is 32 bytes and
   * the nonce 12, and otherwise fails authentication on the empty
   * placeholder, which also comes out as an empty file.
   */
  lemma DecryptRoutedByStoredMethod(svc: FileService, req: DecryptFileRequest, file: Model, km: KeyMaterial)
    requires IsChaCha20Poly1305(svc.aead)
    requires FindOwned(svc.files, req.fileId, req.userId) == Some(file)
    requires DecodeHandle(req.encryptionKey) == Ok(km)
    ensures file.encryptionMethod != ChaCha20Poly1305 ==> svc.DecryptFile(req, false) == Response(FileBlob(file.name, []))
    ensures file.encryptionMethod == ChaCha20Poly1305 ==>
      if |km.key| != KEY_LEN || |km.nonce| != NONCE_LEN then svc.DecryptFile(req, false).Panicked?
      else svc.DecryptFile(req, false) == Response(FileBlob(file.name, []))
  {
    if file.encryptionMethod == ChaCha20Poly1305 && |km.key| == KEY_LEN && |km.nonce| == NONCE_LEN {
      EmptyCipherTextOpensEmpty(svc.aead, km.key, km.nonce);
    }
  }

  /**
   * The handle `encrypt_file` issued, given back to `decrypt_file` for the
   * row it inserted, always parses and never panics, and yields an empty
   * file: the ciphertext is never stored or fetched.
   */
  lemma DecryptAfterEncrypt(svc: FileService, req: DecryptFileRequest, file: Model, draw: Draw, p: seq<byte>)
    requires IsChaCha20Poly1305(svc.aead)
    requires FindOwned(svc.files, req.fileId, req.userId) == Some(file)
    requires var sealed := Encrypt(CipherFor(file.encryptionMethod), svc.aead, draw, p);
      req.encryptionKey == EncodeHandle(KeyMaterial(sealed.nonce, sealed.key))
    ensures svc.DecryptFile(req, false) == Response(FileBlob(file.name, []))
  {
    var sealed := Encrypt(CipherFor(file.encryptionMethod), svc.aead, draw, p);
    var km := KeyMaterial(sealed.nonce, sealed.key);
    HandleRoundTrip(km);
    DecryptRoutedByStoredMethod(svc, req, file, km);
  }
}
