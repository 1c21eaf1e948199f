/** A codec with the laws the backup results ask for, two letters to the byte. */
module BackupCodec {
  import opened Options
  import opened Ulid
  import opened Deployment
  import opened Stores
  import opened BackupArchive
  import opened StateBackup

  const LETTERS: string := "ABCDEFGHIJKLMNOP"

  function Write(b: Bytes): string {
    if b == [] then "" else [LETTERS[b[0] / 16], LETTERS[b[0] % 16]] + Write(b[1..])
  }

  function Read(s: string): Option<Bytes> {
    if s == "" then Some([])
    else if |s| == 1 || !('A' <= s[0] <= 'P') || !('A' <= s[1] <= 'P') then None
    else
      match Read(s[2..])
      case None => None
      case Some(rest) => Some([(s[0] - 'A') as int * 16 + (s[1] - 'A') as int] + rest)
  }

  const SAMPLE: Codec := Codec(
    (b: Bytes) => seq(64, _ => '0'), (b: Bytes) => "sha256-A", (b: Bytes) => Write(b), (s: string) => Read(s), (a: Archive) => [])

  lemma LetterIsDigit(i: nat)
    requires i < 16
    ensures 'A' <= LETTERS[i] <= 'P' && (LETTERS[i] - 'A') as int == i
  {
  }

  lemma {:induction false} ReadInvertsWrite(b: Bytes)
    ensures Read(Write(b)) == Some(b)
  {
    if b != [] {
      LetterIsDigit(b[0] / 16);
      LetterIsDigit(b[0] % 16);
      assert Write(b)[2..] == Write(b[1..]);
      ReadInvertsWrite(b[1..]);
      assert b == [b[0]] + b[1..];
    }
  }

  lemma {:induction false} WritesBase64(b: Bytes)
    ensures IsBase64(Write(b)) <==> b != []
    ensures forall i :: 0 <= i < |Write(b)| ==> IsBase64Char(Write(b)[i])
  {
    if b != [] {
      LetterIsDigit(b[0] / 16);
      LetterIsDigit(b[0] % 16);
      WritesBase64(b[1..]);
    }
  }

  /** The laws assumed of the library calls can be met. */
  lemma LawfulCodecExists()
    ensures Lawful(SAMPLE)
  {
    forall b: Bytes ensures IsSha256Hex(SAMPLE.sha256(b)) && IsIntegrity(SAMPLE.integrity(b)) {
      assert "sha256-A"[7..] == "A" && "sha256-" <= "sha256-A";
    }
    forall b: Bytes ensures (IsBase64(SAMPLE.encode(b)) <==> b != []) && SAMPLE.decode(SAMPLE.encode(b)) == Some(b) {
      ReadInvertsWrite(b);
      WritesBase64(b);
    }
  }
}
