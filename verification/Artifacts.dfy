/**
 The descriptors of published objects (browser/src/manifest.ts, `artifactObject`, `validatePath` and the
 bucket prefix of postings files): what the checks accept, without their way of computing it.
 */
module Artifacts {
  import opened Numbers

  datatype Artifact = Artifact(path: string, size: int, sha256: string)

  /** `integer(value, label, minimum, maximum)`; values are numbers the JSON parser let through. */
  predicate IsInteger(value: int, minimum: int, maximum: int)
  {
    -SAFE_INTEGER_MAX <= value <= SAFE_INTEGER_MAX && minimum <= value <= maximum
  }

  /** The parts of a path between its slashes. */
  function Parts(path: string): (r: seq<string>)
    ensures r != []
  {
    if path == "" then [""]
    else
      var rest := Parts(path[1..]);
      if path[0] == '/' then [""] + rest else [[path[0]] + rest[0]] + rest[1..]
  }

  predicate Contains(text: string, part: string)
  {
    exists i :: 0 <= i <= |text| && part <= text[i..]
  }

  predicate EndsWith(text: string, end: string)
  {
    |end| <= |text| && text[|text| - |end|..] == end
  }

  predicate ValidPath(path: string)
  {
    && path != "" && path[0] != '/' && !Contains(path, "://") && EndsWith(path, ".parquet")
    && (forall i :: 0 <= i < |path| ==> path[i] != '\\' && path[i] != '?' && path[i] != '#')
    && var parts := Parts(path);
       forall i :: 0 <= i < |parts| ==> parts[i] != "" && parts[i] != "." && parts[i] != ".."
  }

  predicate ValidDigest(sha256: string)
  {
    |sha256| == 64 && forall i :: 0 <= i < 64 ==> '0' <= sha256[i] <= '9' || 'a' <= sha256[i] <= 'f'
  }

  /** `artifactObject` on a Parquet object. */
  predicate ArtifactOk(a: Artifact)
  {
    ValidPath(a.path) && IsInteger(a.size, 1, SAFE_INTEGER_MAX) && ValidDigest(a.sha256)
  }

  function Decimal(n: nat): (r: string)
    ensures r != ""
  {
    if n < 10 then [Digit(n)] else Decimal(n / 10) + [Digit(n % 10)]
  }

  function Digit(d: nat): (c: char)
    requires d < 10
    ensures '0' <= c <= '9'
  {
    '0' + (d as char)
  }

  /** `padStart` with zeros. */
  function PadStart(text: string, length: nat): (r: string)
    ensures |text| >= length ==> r == text
    ensures |text| <= length ==> |r| == length
    decreases length - |text|
  {
    if |text| >= length then text else PadStart("0" + text, length)
  }

  /** Where the postings files of a bucket must be. */
  function BucketPrefix(bucket: nat): string
  {
    "ivf_postings/cid_bucket=" + PadStart(Decimal(bucket), 6) + "/"
  }

  function DecimalValue(text: string): int
  {
    if text == "" then 0
    else
      var n := |text| - 1;
      10 * DecimalValue(text[..n]) + (text[n] as int - '0' as int)
  }

  predicate AllDigits(text: string)
  {
    forall i :: 0 <= i < |text| ==> '0' <= text[i] <= '9'
  }

  lemma {:induction false} DecimalReads(n: nat)
    ensures DecimalValue(Decimal(n)) == n && AllDigits(Decimal(n))
  {
    if n < 10 {
      assert Decimal(n)[..0] == "";
    } else {
      DecimalReads(n / 10);
      var r := Decimal(n);
      assert r[..|r| - 1] == Decimal(n / 10);
    }
  }

  lemma {:induction false} LeadingZero(text: string)
    ensures DecimalValue("0" + text) == DecimalValue(text)
  {
    if text == "" {
      assert ("0" + text)[..0] == "";
    } else {
      var n := |text| - 1;
      LeadingZero(text[..n]);
      assert ("0" + text)[..n + 1] == "0" + text[..n];
    }
  }

  lemma {:induction false} PaddingReads(text: string, length: nat)
    requires AllDigits(text)
    ensures DecimalValue(PadStart(text, length)) == DecimalValue(text) && AllDigits(PadStart(text, length))
    decreases length - |text|
  {
    if |text| < length {
      LeadingZero(text);
      PaddingReads("0" + text, length);
    }
  }

  /** A path lies under the prefix of one bucket at most, so buckets never share a file. */
  lemma PathNamesBucket(path: string, a: nat, b: nat)
    requires BucketPrefix(a) <= path && BucketPrefix(b) <= path
    ensures a == b
  {
    hide DecimalValue, Decimal, PadStart;
    var head := "ivf_postings/cid_bucket=";
    var x, y := PadStart(Decimal(a), 6), PadStart(Decimal(b), 6);
    DecimalReads(a);
    DecimalReads(b);
    PaddingReads(Decimal(a), 6);
    PaddingReads(Decimal(b), 6);
    DigitsEnd(path[|head|..], x);
    DigitsEnd(path[|head|..], y);
  }

  function FirstSlash(text: string): nat
  {
    if text == "" || text[0] == '/' then 0 else 1 + FirstSlash(text[1..])
  }

  lemma {:induction false} DigitsEnd(text: string, x: string)
    requires AllDigits(x) && x + "/" <= text
    ensures FirstSlash(text) == |x| && x == text[..|x|]
  {
    assert text[0] == (x + "/")[0];
    if x != "" {
      assert (x + "/")[1..] == x[1..] + "/" && (x + "/")[1..] <= text[1..];
      DigitsEnd(text[1..], x[1..]);
      assert x == [x[0]] + x[1..] && text[..|x|] == [text[0]] + text[1..][..|x| - 1];
    }
  }

  // ---------- what is accepted ----------

  /** A number that JavaScript represents exactly. */
  ghost predicate Portable(value: int)
  {
    -0x1F_FFFF_FFFF_FFFF <= value <= 0x1F_FFFF_FFFF_FFFF
  }

  /** Segments with slashes between them. */
  function Join(parts: seq<string>): string
    requires parts != []
  {
    if |parts| == 1 then parts[0] else parts[0] + "/" + Join(parts[1..])
  }

  ghost predicate NoSlashes(parts: seq<string>)
  {
    forall i :: 0 <= i < |parts| ==> '/' !in parts[i]
  }

  /**
   A relative path to a Parquet file: segments, none of them empty or dots, and none of the characters that
   would make it another kind of URL.
   */
  ghost predicate ProperPath(path: string)
  {
    && (forall i :: 0 <= i < |path| ==> path[i] !in {'\\', '?', '#'})
    && |path| >= 8 && path[|path| - 8..] == ".parquet"
    && exists parts :: parts != [] && NoSlashes(parts) && Join(parts) == path && NoDots(parts)
  }

  ghost predicate NoDots(parts: seq<string>)
  {
    forall i :: 0 <= i < |parts| ==> parts[i] !in {"", ".", ".."}
  }

  ghost predicate ProperDigest(sha256: string)
  {
    |sha256| == 64 && forall i :: 0 <= i < 64 ==> sha256[i] in "0123456789abcdef"
  }

  ghost predicate ProperArtifact(a: Artifact)
  {
    ProperPath(a.path) && 1 <= a.size && Portable(a.size) && ProperDigest(a.sha256)
  }

  lemma {:induction false} PartsJoin(path: string)
    ensures Join(Parts(path)) == path && NoSlashes(Parts(path))
  {
    hide Join, NoSlashes;
    if path == "" {
      NoParts();
    } else {
      PartsJoin(path[1..]);
      var parts := Parts(path[1..]);
      if path[0] == '/' {
        EmptyInFront(parts);
      } else {
        LetterInFront(path[0], parts);
      }
      assert path == [path[0]] + path[1..];
    }
  }

  lemma NoParts()
    ensures Join([""]) == "" && NoSlashes([""])
  {
  }

  lemma EmptyInFront(parts: seq<string>)
    requires parts != []
    ensures Join([""] + parts) == "/" + Join(parts) && (NoSlashes(parts) ==> NoSlashes([""] + parts))
  {
    assert ([""] + parts)[1..] == parts;
  }

  lemma LetterInFront(letter: char, parts: seq<string>)
    requires parts != [] && letter != '/'
    ensures var longer := [[letter] + parts[0]] + parts[1..];
            Join(longer) == [letter] + Join(parts) && (NoSlashes(parts) ==> NoSlashes(longer))
  {
    var longer := [[letter] + parts[0]] + parts[1..];
    assert longer[1..] == parts[1..];
    if |parts| > 1 { assert ([letter] + parts[0]) + "/" + Join(parts[1..]) == [letter] + (parts[0] + "/" + Join(parts[1..])); }
  }

  /** There is only one way to cut a path at its slashes. */
  lemma {:induction false} JoinSplits(parts: seq<string>)
    requires parts != [] && NoSlashes(parts)
    ensures Parts(Join(parts)) == parts
    decreases |Join(parts)|
  {
    if parts[0] == "" {
      if |parts| > 1 {
        assert Join(parts)[1..] == Join(parts[1..]);
        JoinSplits(parts[1..]);
      }
    } else {
      var shorter := parts[0 := parts[0][1..]];
      assert shorter[1..] == parts[1..];
      FirstLetter(parts, shorter);
      assert NoSlashes(shorter) by {
        forall i | 0 <= i < |shorter| ensures '/' !in shorter[i] {
          assert i > 0 ==> shorter[i] == parts[i];
        }
      }
      JoinSplits(shorter);
      assert [parts[0][0]] + shorter[0] == parts[0];
    }
  }

  lemma FirstLetter(parts: seq<string>, shorter: seq<string>)
    requires parts != [] && parts[0] != "" && shorter == parts[0 := parts[0][1..]]
    ensures Join(parts) != "" && Join(parts)[0] == parts[0][0] && Join(parts)[1..] == Join(shorter)
  {
    assert shorter[1..] == parts[1..];
  }

  lemma {:induction false} DoubleSlash(path: string, k: nat)
    requires k + 1 < |path| && path[k] == path[k + 1] == '/'
    ensures "" in Parts(path)[1..]
  {
    var rest := Parts(path[1..]);
    if k == 0 {
      assert rest[0] == "" && Parts(path)[1..] == rest;
    } else {
      DoubleSlash(path[1..], k - 1);
      assert Parts(path)[1..] == (if path[0] == '/' then rest else rest[1..]);
      assert forall part :: part in rest[1..] ==> part in rest;
    }
  }

  /** The path check accepts exactly the proper paths. */
  lemma PathExactly(path: string)
    ensures ValidPath(path) <==> ProperPath(path)
  {
    PartsJoin(path);
    if parts :| parts != [] && NoSlashes(parts) && Join(parts) == path && NoDots(parts) {
      JoinSplits(parts);
    }
    hide Join, NoSlashes, Contains;
    if path == "" || path[0] == '/' || Contains(path, "://") {
      EmptyPart(path);
      NotNoDots(Parts(path));
    }
  }

  lemma NotNoDots(parts: seq<string>)
    requires "" in parts
    ensures !NoDots(parts)
  {
    var k :| 0 <= k < |parts| && parts[k] == "";
  }

  lemma EmptyPart(path: string)
    requires path == "" || path[0] == '/' || Contains(path, "://")
    ensures "" in Parts(path)
  {
    if path == "" || path[0] == '/' {
      assert Parts(path)[0] == "";
    } else {
      var i :| 0 <= i <= |path| && "://" <= path[i..];
      assert path[i + 1] == path[i..][1] && path[i + 2] == path[i..][2];
      DoubleSlash(path, i + 1);
      assert forall part :: part in Parts(path)[1..] ==> part in Parts(path);
    }
  }

  lemma DigestExactly(sha256: string)
    ensures ValidDigest(sha256) <==> ProperDigest(sha256)
  {
    forall c: char ensures '0' <= c <= '9' || 'a' <= c <= 'f' <==> c in "0123456789abcdef" {
      HexLetter(c);
    }
  }

  lemma HexLetter(c: char)
    ensures '0' <= c <= '9' || 'a' <= c <= 'f' <==> c in "0123456789abcdef"
  {
    var digits := "0123456789abcdef";
    if '0' <= c <= '9' { assert digits[c as int - '0' as int] == c; }
    if 'a' <= c <= 'f' { assert digits[10 + (c as int - 'a' as int)] == c; }
  }

  /** A descriptor is accepted exactly if its path, size and digest are proper. */
  lemma ArtifactExactly(a: Artifact)
    ensures ArtifactOk(a) <==> ProperArtifact(a)
  {
    hide ValidPath, ProperPath, ValidDigest, ProperDigest;
    PathExactly(a.path);
    DigestExactly(a.sha256);
  }

  /** The directory of a bucket: its number in decimal, with zeros in front up to six digits and no further. */
  lemma BucketSpelled(bucket: nat) returns (digits: string)
    ensures BucketPrefix(bucket) == "ivf_postings/cid_bucket=" + digits + "/"
    ensures AllDigits(digits) && DecimalValue(digits) == bucket && |digits| >= 6 && (|digits| > 6 ==> digits[0] != '0')
  {
    hide DecimalValue, Decimal, PadStart;
    digits := PadStart(Decimal(bucket), 6);
    DecimalReads(bucket);
    DecimalStarts(bucket);
    PaddingReads(Decimal(bucket), 6);
    PaddedLength(Decimal(bucket), 6);
  }

  lemma {:induction false} DecimalStarts(n: nat)
    ensures n > 0 ==> Decimal(n)[0] != '0'
    ensures n == 0 ==> Decimal(n) == "0"
  {
    if n >= 10 {
      DecimalStarts(n / 10);
      assert Decimal(n)[0] == Decimal(n / 10)[0];
    }
  }

  lemma PaddedLength(text: string, length: nat)
    ensures |PadStart(text, length)| >= length
    ensures |PadStart(text, length)| > length ==> PadStart(text, length) == text
  {
  }
}
