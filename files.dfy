/** Receipt file checks: the extension allow-list of `allowed_file` and the
    per-booking path under which an accepted receipt is recorded. */
module Files {
  import opened Records

  const AllowedExtensions: set<string> := {"png", "jpg", "jpeg", "pdf"}

  /** ASCII lower-casing. Python's `str.lower` also folds non-ASCII letters,
      but none of those folds into the letters of an allowed extension. */
  function LowerChar(c: char): char
  {
    if 'A' <= c <= 'Z' then (c as int + 32) as char else c
  }

  function Lower(s: string): (r: string)
    ensures |r| == |s|
  {
    seq(|s|, i requires 0 <= i < |s| => LowerChar(s[i]))
  }

  /** Position of the last '.' in `s`, if any. */
  function LastDot(s: string): (r: Option<nat>)
    ensures r.Some? ==> r.value < |s| && s[r.value] == '.' && '.' !in s[r.value + 1..]
    ensures r.None? ==> '.' !in s
  {
    if |s| == 0 then None
    else if s[|s| - 1] == '.' then Some(|s| - 1)
    else
      var r := LastDot(s[..|s| - 1]);
      assert r.Some? ==> s[r.value + 1..] == s[..|s| - 1][r.value + 1..] + [s[|s| - 1]];
      assert s == s[..|s| - 1] + [s[|s| - 1]];
      r
  }

  /** The name has a '.', and the text after the last one, lower-cased, is an
      allowed extension (`rsplit('.', 1)[1].lower()`). */
  function AllowedFile(filename: string): (ok: bool)
    ensures ok ==> '.' in filename
  {
    match LastDot(filename)
    case None => false
    case Some(i) => Lower(filename[i + 1..]) in AllowedExtensions
  }

  /** `AllowedFile` accepts exactly the names whose final dot-separated part is
      an allowed extension in any letter case. */
  lemma AllowedFileIff(filename: string)
    ensures AllowedFile(filename) <==>
      exists i :: 0 <= i < |filename| && filename[i] == '.' && '.' !in filename[i + 1..]
        && Lower(filename[i + 1..]) in AllowedExtensions
  {
    var d := LastDot(filename);
    if AllowedFile(filename) {
      assert filename[d.value] == '.';
    }
    forall i | 0 <= i < |filename| && filename[i] == '.' && '.' !in filename[i + 1..]
      ensures d == Some(i)
    {
      assert d.Some? by { assert '.' in filename; }
      var j := d.value;
      assert j == i;
    }
  }

  /** The extension is compared after lower-casing: an upper-case JPG passes,
      and a name whose last part is not an allowed extension does not. */
  lemma ExtensionCaseIgnored()
    ensures AllowedFile("pay.JPG")
    ensures !AllowedFile("pay.jpg.exe")
  {
    assert LastDot("pay.JPG") == Some(3);
    assert Lower("JPG") == "jpg";
    assert LastDot("pay.jpg.exe") == Some(7);
    assert Lower("exe") == "exe";
  }

  /** The folder under which the receipts of one booking are stored. */
  function ReceiptFolder(bookingId: nat): string
  {
    "booking_" + Decimal(bookingId) + "/"
  }

  /** The path recorded on the booking: its folder, then the upload time stamp
      and the sanitised original name joined by '_'. */
  function ReceiptPath(bookingId: nat, stamp: string, safeName: string): (p: string)
    ensures |ReceiptFolder(bookingId)| <= |p| && p[..|ReceiptFolder(bookingId)|] == ReceiptFolder(bookingId)
  {
    ReceiptFolder(bookingId) + stamp + "_" + safeName
  }

  /** A receipt path of one booking never lies in the folder of another. */
  lemma {:induction false} ReceiptPathsSeparated(a: nat, b: nat, stamp: string, safeName: string)
    requires a != b
    ensures var p := ReceiptPath(a, stamp, safeName);
      !(|ReceiptFolder(b)| <= |p| && p[..|ReceiptFolder(b)|] == ReceiptFolder(b))
  {
    var p := ReceiptPath(a, stamp, safeName);
    var da, db := Decimal(a), Decimal(b);
    var fb := ReceiptFolder(b);
    if |fb| <= |p| && p[..|fb|] == fb {
      var n := |"booking_"|;
      assert p[n + |da|] == '/';
      assert fb[n + |db|] == '/';
      if |da| == |db| {
        assert da == p[n..n + |da|] == fb[n..n + |db|] == db;
        DecimalInjective(a, b);
      }
    }
  }
}
