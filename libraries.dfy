/**
 The outcomes of the library calls the upload service makes. Zip reading,
 PKCS#7 parsing and verification, property-list decoding and SHA-1 belong to
 other packages; the service only reacts to what they return, so each of them
 appears here as a total function (an oracle) from bytes to an outcome.
 */
module Libraries {

  datatype Option<+T> = None | Some(value: T)

  datatype Result<+T, +E> = Ok(value: T) | Err(error: E)

  type byte = x: int | 0 <= x < 256

  type Bytes = seq<byte>

  /** A SHA-1 sum is always 20 bytes long. */
  type Digest = s: Bytes | |s| == 20 witness seq(20, _ => 0)

  /**
   A decoded property-list value: a dictionary, a string, or any other value
   (array, number, boolean, date, data), whose contents never matter here.
   */
  datatype Value = Dict(entries: map<string, Value>) | Str(s: string) | Other

  /** A decoded provisioning profile: the top level of a property list is a dictionary. */
  type Profile = map<string, Value>

  /**
   What reading one archive member gives: `Open` fails, or it succeeds but
   reading the stream to its end fails (a bad checksum, a truncated member),
   or the whole content is read.
   */
  datatype MemberData = OpenFails | ReadFails | Readable(bytes: Bytes)

  /** One archive member, in central-directory order. */
  datatype Member = Member(name: string, data: MemberData)

  /** A parsed PKCS#7 message: its content and whether `Verify` accepts its signature. */
  datatype SignedData = SignedData(content: Bytes, signatureValid: bool)

  /**
   The library oracles. `openZip` is `zip.OpenReader` on the stored bytes,
   `parsePkcs7` is `pkcs7.Parse`, `decodePlist` is `plist.Unmarshal` into a
   dictionary, and `sha1` is the SHA-1 sum.
   */
  datatype Libraries = Libraries(
    openZip: Bytes -> Option<seq<Member>>,
    parsePkcs7: Bytes -> Option<SignedData>,
    decodePlist: Bytes -> Option<Profile>,
    sha1: Bytes -> Digest)
}
