/**
 * Binary framing of SBD payloads.
 *
 * Upload (`AT+SBDWB=<n>`): the n payload bytes followed by a two-byte,
 * big-endian checksum, the sum of the payload bytes modulo 65536.
 * Download (`AT+SBDRB`): a two-byte big-endian length, then that many
 * message bytes (the modem appends a checksum the engine does not read).
 */
module Framer {
  import opened Wrappers
  import Numerals

  type Byte = b: int | 0 <= b < 256

  /** Arithmetic sum of the bytes, accumulated front to back as the upload loop does. */
  function Sum(p: seq<Byte>): nat {
    if p == [] then 0 else Sum(p[..|p| - 1]) + p[|p| - 1]
  }

  function Checksum(p: seq<Byte>): nat {
    Sum(p) % 65536
  }

  /** Big-endian unsigned 16-bit value of two bytes (`readUInt16BE`). */
  function Uint16BE(hi: Byte, lo: Byte): nat {
    hi * 256 + lo
  }

  /**
   * The frame the upload loop produces: the payload, then `(sum >> 8) & 0xff`,
   * then `sum & 0xff`. For any sum below 2^53 the JavaScript bit operators
   * compute exactly these two residues.
   */
  function UploadFrame(p: seq<Byte>): seq<Byte> {
    p + [(Sum(p) / 256) % 256, Sum(p) % 256]
  }

  /** The command announcing an n-byte upload. */
  function AnnounceCommand(n: nat): string {
    "AT+SBDWB=" + Numerals.Decimal(n)
  }

  /**
   * The upload loop: copies the payload into a buffer two bytes longer while
   * summing it, then stores the low and the high byte of the sum.
   */
  method BuildUploadFrame(payload: seq<Byte>) returns (ob: array<Byte>)
    ensures fresh(ob) && ob[..] == UploadFrame(payload)
  {
    ob := new Byte[|payload| + 2];
    var sum: nat := 0;
    for i := 0 to |payload|
      invariant sum == Sum(payload[..i])
      invariant ob[..i] == payload[..i]
    {
      ob[i] := payload[i];
      sum := sum + payload[i];
      assert payload[..i + 1][..i] == payload[..i];
    }
    assert payload[..|payload|] == payload;
    ob[|payload| + 1] := sum % 256;
    ob[|payload|] := (sum / 256) % 256;
    assert ob[..] == ob[..|payload|] + [ob[|payload|], ob[|payload| + 1]];
  }

  /** The frame keeps the payload in front and appends the checksum, high byte first. */
  lemma UploadFrameLayout(p: seq<Byte>)
    ensures |UploadFrame(p)| == |p| + 2
    ensures UploadFrame(p)[..|p|] == p
    ensures Uint16BE(UploadFrame(p)[|p|], UploadFrame(p)[|p| + 1]) == Checksum(p)
  {
    var f := UploadFrame(p);
    assert f[..|p|] == p;
    HighLow(Sum(p));
  }

  /** The high and the low byte of a sum give back the sum modulo 2^16. */
  lemma HighLow(s: nat)
    ensures (s / 256) % 256 * 256 + s % 256 == s % 65536
  {
    var q, r := s / 256, s % 256;
    var a, b := q / 256, q % 256;
    assert s == q * 256 + r;
    assert q == a * 256 + b;
    assert s == a * 65536 + (b * 256 + r);
    assert 0 <= b * 256 + r < 65536;
  }

  /**
   * What the receiving modem does with an upload: split off the trailer and
   * accept the payload only when the trailer is its checksum.
   */
  function CheckUpload(frame: seq<Byte>): (r: Option<seq<Byte>>)
    ensures r.Some? ==> |frame| == |r.value| + 2 && frame[..|r.value|] == r.value
  {
    if |frame| < 2 then None
    else
      var p := frame[..|frame| - 2];
      if Uint16BE(frame[|frame| - 2], frame[|frame| - 1]) == Checksum(p) then Some(p) else None
  }

  /** Round trip: every framed payload is accepted and gives back exactly the payload. */
  lemma UploadRoundTrip(p: seq<Byte>)
    ensures CheckUpload(UploadFrame(p)) == Some(p)
  {
    UploadFrameLayout(p);
  }

  /** Reading the decimal length back out of the announce command gives n. */
  lemma AnnounceRoundTrip(n: nat)
    ensures |AnnounceCommand(n)| > 9 && AnnounceCommand(n)[..9] == "AT+SBDWB="
    ensures Numerals.ParseNat(AnnounceCommand(n)[9..]) == Some((n, ""))
  {
    Numerals.ParseDecimal(n, "");
    assert AnnounceCommand(n)[9..] == Numerals.Decimal(n) + "";
  }

  datatype FramingError =
    | ShortHeader                           // fewer than two bytes: no length to read
    | ShortBody(declared: nat, held: nat)   // fewer message bytes than the length says

  /**
   * Decodes a binary capture: the message is the `length` bytes after the
   * two-byte prefix. A capture too short for its declared length does not
   * determine the message and is reported as such.
   */
  function DecodeDownload(capture: seq<Byte>): (r: Result<seq<Byte>, FramingError>)
    ensures r.Failure? <==> |capture| < 2 || |capture| - 2 < Uint16BE(capture[0], capture[1])
    ensures r == Failure(ShortHeader) <==> |capture| < 2
    ensures r.Success? ==> |r.value| == Uint16BE(capture[0], capture[1])
                           && capture[..2 + |r.value|] == capture[..2] + r.value
  {
    if |capture| < 2 then Failure(ShortHeader)
    else
      var len := Uint16BE(capture[0], capture[1]);
      if |capture| - 2 < len then Failure(ShortBody(len, |capture| - 2))
      else Success(capture[2..2 + len])
  }

  /** What the modem sends for `AT+SBDRB`: length, message, checksum. */
  function DownloadImage(m: seq<Byte>): seq<Byte>
    requires |m| < 65536
  {
    [|m| / 256, |m| % 256] + m + [(Sum(m) / 256) % 256, Sum(m) % 256]
  }

  /** Round trip: the message the modem sends is recovered exactly, whatever follows it. */
  lemma DownloadRoundTrip(m: seq<Byte>, trailing: seq<Byte>)
    requires |m| < 65536
    ensures DecodeDownload(DownloadImage(m) + trailing) == Success(m)
  {
    var c := DownloadImage(m) + trailing;
    assert c[0] == |m| / 256 && c[1] == |m| % 256;
    assert c[2..2 + |m|] == m;
  }

  /** The example capture `00 03 'a' 'b' 'c' <checksum>` decodes to "abc"; cut short it is an error. */
  lemma DownloadExample()
    ensures DecodeDownload([0x00, 0x03, 0x61, 0x62, 0x63, 0x01, 0x26]) == Success([0x61, 0x62, 0x63])
    ensures DecodeDownload([0x00, 0x03, 0x61, 0x62]) == Failure(ShortBody(3, 2))
  {
    var c := [0x00, 0x03, 0x61, 0x62, 0x63, 0x01, 0x26];
    assert c[2..5] == [0x61, 0x62, 0x63];
  }
}
