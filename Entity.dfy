/**
 * The `files` table row, its public view, and the algorithm enumeration
 * with its string codec (file/src/entity/file.rs).
 */
module Entity {
  import opened Wrappers
  import opened Decimal

  /** The closed set of algorithms a file can be encrypted with. */
  datatype EncryptionMethod = Aes256Gcm | Aes128Gcm | ChaCha20Poly1305

  /** The `string_value` sea_orm stores in the `encryption_method` column. */
  function StringValue(m: EncryptionMethod): (s: string)
    ensures s in {"aes256gcm", "aes128gcm", "chacha20poly1305"}
    ensures (s == "aes256gcm" <==> m == Aes256Gcm) && (s == "aes128gcm" <==> m == Aes128Gcm)
  {
    match m
    case Aes256Gcm => "aes256gcm"
    case Aes128Gcm => "aes128gcm"
    case ChaCha20Poly1305 => "chacha20poly1305"
  }

  /** `FromStr for EncryptionMethod`: exactly three names parse, anything else is `Err(())`. */
  function FromStr(s: string): (r: Result<EncryptionMethod, ()>)
    ensures r.Ok? <==> s in {"aes256gcm", "aes128gcm", "chacha20poly1305"}
    ensures r.Ok? ==> ToString(r.value) == s
  {
    if s == "aes256gcm" then Ok(Aes256Gcm)
    else if s == "aes128gcm" then Ok(Aes128Gcm)
    else if s == "chacha20poly1305" then Ok(ChaCha20Poly1305)
    else Err(())
  }

  /** `Display for EncryptionMethod`: prints the very string the database column stores. */
  function ToString(m: EncryptionMethod): (s: string)
    ensures s == StringValue(m)
  {
    match m
    case Aes256Gcm => "aes256gcm"
    case Aes128Gcm => "aes128gcm"
    case ChaCha20Poly1305 => "chacha20poly1305"
  }

  /** `to_string` then `from_str` gives back every variant. */
  lemma ParseDisplayed(m: EncryptionMethod)
    ensures FromStr(ToString(m)) == Ok(m)
  {
  }

  /** `from_str` then `to_string` gives back every accepted string. */
  lemma DisplayParsed(s: string)
    requires FromStr(s).Ok?
    ensures ToString(FromStr(s).value) == s
  {
  }

  /** The three variants print as three distinct strings. */
  lemma DisplayInjective(m1: EncryptionMethod, m2: EncryptionMethod)
    ensures ToString(m1) == ToString(m2) ==> m1 == m2
  {
    ParseDisplayed(m1);
    ParseDisplayed(m2);
  }

  /** A row of the `files` table (`Model`); `size` is stored as text. */
  datatype Model = Model(
    id: string,
    userId: string,
    name: string,
    size: string,
    encryptionMethod: EncryptionMethod,
    createdAt: string,
    updatedAt: string)

  /** The public `FileMetadata` view: no owner, no key material, a numeric size. */
  datatype FileMetadata = FileMetadata(
    id: string,
    name: string,
    size: nat,
    encryptionMethod: string,
    createdAt: string,
    updatedAt: string)

  /**
   * `Model::to_proto`: copies id, name and timestamps, prints the method,
   * and parses the stored size as a `u64`, falling back to 0.
   */
  function ToProto(m: Model): (v: FileMetadata)
    ensures v.id == m.id && v.name == m.name
    ensures v.createdAt == m.createdAt && v.updatedAt == m.updatedAt
    ensures FromStr(v.encryptionMethod) == Ok(m.encryptionMethod)
    ensures v.size < U64_LIMIT
    ensures ParseU64(m.size).Some? ==> v.size == ParseU64(m.size).value
    ensures ParseU64(m.size).None? ==> v.size == 0
  {
    FileMetadata(m.id, m.name, ParseU64(m.size).GetOr(0), ToString(m.encryptionMethod), m.createdAt, m.updatedAt)
  }

  /**
   * A size written by `to_string` reads back unchanged; any other text that
   * parses reads as its value; an unparsable one reads as 0.
   */
  lemma ProtoSize(m: Model, n: nat)
    ensures n < U64_LIMIT && m.size == ToDecimal(n) ==> ToProto(m).size == n
    ensures ParseU64(m.size).Some? ==> ToProto(m).size == ParseU64(m.size).value
    ensures ParseU64(m.size).None? ==> ToProto(m).size == 0
  {
    if n < U64_LIMIT && m.size == ToDecimal(n) {
      ParseDecimal(n);
    }
  }

  /** Numerals `to_string` never writes still parse: a leading zero or a '+' reads as the plain value. */
  lemma NonCanonicalSizes(m: Model)
    ensures m.size == "007" ==> ToProto(m).size == 7
    ensures m.size == "+7" ==> ToProto(m).size == 7
  {
    assert DigitsValue("0") == 0;
    AppendDigit("0", '0');
    assert "0" + ['0'] == "00";
    AppendDigit("00", '7');
    assert "00" + ['7'] == "007";
    assert DigitsValue("7") == 7;
    assert Unsigned("+7") == "7";
  }
}
