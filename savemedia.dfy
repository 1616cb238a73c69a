/**
 * `SaveMedia`: routing an upload to the image or video collection, and the
 * collision-free file name used when writing directly into `DCIM/Camera`.
 * The MediaStore inserts and file writes themselves are the `Storage`
 * functions, supplied from outside.
 */
module SaveMedia {
  import opened Text

  /** `saveImage` and `saveVideo`: persist bytes under a display name and MIME type, reporting success. */
  datatype Storage = Storage(
    saveImage: (string, string, seq<bv8>) -> bool,
    saveVideo: (string, string, seq<bv8>) -> bool)

  /** `saveToCamera`: videos go to the video collection, everything else to the image collection. */
  function SaveToCamera(store: Storage, displayName: string, mime: string, data: seq<bv8>): (ok: bool)
    ensures StartsWith(mime, "video/") ==> ok == store.saveVideo(displayName, mime, data)
    ensures !StartsWith(mime, "video/") ==> ok == store.saveImage(displayName, mime, data)
  {
    if StartsWith(mime, "video/") then store.saveVideo(displayName, mime, data)
    else store.saveImage(displayName, mime, data)
  }

  /**
   * The base and extension of a name: split at the last `.` when that dot is
   * not the first character, otherwise the whole name and no extension.
   */
  function SplitExtension(name: string): (r: (string, string))
    ensures r.0 + r.1 == name
    ensures r.1 != "" ==> r.1[0] == '.' && r.0 != "" && '.' !in r.1[1..]
    ensures LastIndexOf(name, '.') <= 0 ==> r.1 == ""
    ensures r.1 == "" <==> forall k :: 0 < k < |name| ==> name[k] != '.'
  {
    var dot := LastIndexOf(name, '.');
    if dot > 0 then
      assert forall j :: dot < j < |name| ==> name[j] != '.';
      assert forall j :: 0 <= j < |name[dot..][1..]| ==> name[dot..][1..][j] == name[dot + 1 + j];
      (name[..dot], name[dot..])
    else
      (name, "")
  }

  /** The `i`-th alternative name `base (i)ext`. */
  function Candidate(base: string, ext: string, i: nat): string {
    base + " (" + NatToString(i) + ")" + ext
  }

  /** Different counters give different alternative names. */
  lemma CandidateInjective(base: string, ext: string, i: nat, j: nat)
    requires Candidate(base, ext, i) == Candidate(base, ext, j)
    ensures i == j
  {
    var a, b := NatToString(i), NatToString(j);
    var p := base + " (";
    assert Candidate(base, ext, i) == p + (a + ")" + ext);
    assert Candidate(base, ext, j) == p + (b + ")" + ext);
    assert a + ")" + ext == b + ")" + ext by {
      assert (p + (a + ")" + ext))[|p|..] == a + ")" + ext;
      assert (p + (b + ")" + ext))[|p|..] == b + ")" + ext;
    }
    assert |a| == |b|;
    assert a == (a + ")" + ext)[..|a|];
    assert b == (b + ")" + ext)[..|b|];
    NatToStringInjective(i, j);
  }

  /** The alternatives numbered from 2 up to, not including, `n`. */
  function CandidatesBelow(base: string, ext: string, n: nat): set<string> {
    set j | 2 <= j < n :: Candidate(base, ext, j)
  }

  lemma {:induction false} CandidatesBelowSize(base: string, ext: string, n: nat)
    requires n >= 2
    ensures |CandidatesBelow(base, ext, n)| == n - 2
  {
    if n > 2 {
      CandidatesBelowSize(base, ext, n - 1);
      var prev := CandidatesBelow(base, ext, n - 1);
      var c := Candidate(base, ext, n - 1);
      assert CandidatesBelow(base, ext, n) == prev + {c};
      if c in prev {
        var j :| 2 <= j < n - 1 && Candidate(base, ext, j) == c;
        CandidateInjective(base, ext, j, n - 1);
      }
    } else {
      assert CandidatesBelow(base, ext, n) == {};
    }
  }

  /** When all alternatives below `n` already exist, there are at least `n - 2` existing names. */
  lemma CandidatesBelowBound(existing: set<string>, base: string, ext: string, n: nat)
    requires n >= 2
    requires forall j :: 2 <= j < n ==> Candidate(base, ext, j) in existing
    ensures n - 2 <= |existing|
  {
    CandidatesBelowSize(base, ext, n);
    var below := CandidatesBelow(base, ext, n);
    assert below <= existing;
    SubsetSize(below, existing);
  }

  lemma {:induction false} SubsetSize<T>(a: set<T>, b: set<T>)
    requires a <= b
    ensures |a| <= |b|
    decreases |a|
  {
    if a != {} {
      var x :| x in a;
      SubsetSize(a - {x}, b - {x});
    }
  }

  /** The first alternative from `i` on that does not exist. */
  function ProbeFrom(existing: set<string>, base: string, ext: string, i: nat): (r: string)
    requires i >= 2
    requires forall j :: 2 <= j < i ==> Candidate(base, ext, j) in existing
    ensures r !in existing
    decreases |existing| + 2 - i
  {
    CandidatesBelowBound(existing, base, ext, i);
    if Candidate(base, ext, i) !in existing then Candidate(base, ext, i)
    else
      CandidatesBelowBound(existing, base, ext, i + 1);
      ProbeFrom(existing, base, ext, i + 1)
  }

  /** The name `uniqueLegacyFile` settles on among the names already in the directory. */
  function UniqueName(existing: set<string>, name: string): (r: string)
    ensures r !in existing
  {
    if name !in existing then name
    else
      var (base, ext) := SplitExtension(name);
      ProbeFrom(existing, base, ext, 2)
  }

  /**
   * `ProbeFrom` returns the alternative with the smallest counter from `i` on
   * that is free: every alternative before it exists.
   */
  lemma {:induction false} ProbeFromIsFirstFree(existing: set<string>, base: string, ext: string, i: nat)
    requires i >= 2
    requires forall j :: 2 <= j < i ==> Candidate(base, ext, j) in existing
    ensures exists k :: k >= i && ProbeFrom(existing, base, ext, i) == Candidate(base, ext, k)
                        && forall j :: 2 <= j < k ==> Candidate(base, ext, j) in existing
    decreases |existing| + 2 - i
  {
    CandidatesBelowBound(existing, base, ext, i);
    if Candidate(base, ext, i) in existing {
      CandidatesBelowBound(existing, base, ext, i + 1);
      ProbeFromIsFirstFree(existing, base, ext, i + 1);
    }
  }

  /**
   * `uniqueLegacyFile` keeps a free name as it is; otherwise it returns
   * `base (i)ext` for the smallest `i >= 2` that is free.
   */
  lemma UniqueNameIsFirstFree(existing: set<string>, name: string)
    ensures name !in existing ==> UniqueName(existing, name) == name
    ensures name in existing ==>
      var (base, ext) := SplitExtension(name);
      exists k :: k >= 2 && UniqueName(existing, name) == Candidate(base, ext, k)
                  && forall j :: 2 <= j < k ==> Candidate(base, ext, j) in existing
  {
    if name in existing {
      var (base, ext) := SplitExtension(name);
      ProbeFromIsFirstFree(existing, base, ext, 2);
    }
  }

  /** `uniqueLegacyFile`: probe `name`, then `base (2)ext`, `base (3)ext`, ... until one does not exist. */
  method UniqueLegacyFile(existing: set<string>, name: string) returns (f: string)
    ensures f == UniqueName(existing, name)
    ensures f !in existing
  {
    var (base, ext) := SplitExtension(name);
    f := name;
    var i := 2;
    while f in existing
      invariant i >= 2
      invariant i == 2 ==> f == name
      invariant i > 2 ==> name in existing && f == Candidate(base, ext, i - 1)
      invariant forall j :: 2 <= j < i - 1 ==> Candidate(base, ext, j) in existing
      decreases |existing| + 2 - i
    {
      CandidatesBelowBound(existing, base, ext, i);
      f := Candidate(base, ext, i);
      i := i + 1;
    }
    if i > 2 {
      ProbeFromAgrees(existing, base, ext, 2, i - 1);
    }
  }

  /** Probing from `i` reaches the free alternative `k` when everything in between exists. */
  lemma {:induction false} ProbeFromAgrees(existing: set<string>, base: string, ext: string, i: nat, k: nat)
    requires 2 <= i <= k
    requires forall j :: 2 <= j < k ==> Candidate(base, ext, j) in existing
    requires Candidate(base, ext, k) !in existing
    ensures ProbeFrom(existing, base, ext, i) == Candidate(base, ext, k)
    decreases k - i
  {
    CandidatesBelowBound(existing, base, ext, i);
    if i < k {
      CandidatesBelowBound(existing, base, ext, i + 1);
      ProbeFromAgrees(existing, base, ext, i + 1, k);
    }
  }

  /** Every character of the chosen name comes from `name`, or is a space, a parenthesis or a digit. */
  lemma UniqueNameChars(existing: set<string>, name: string)
    ensures forall c :: c in UniqueName(existing, name) ==> c in name || c == ' ' || c == '(' || c == ')' || IsDigit(c)
  {
    if name in existing {
      var (base, ext) := SplitExtension(name);
      ProbeFromIsFirstFree(existing, base, ext, 2);
      var k :| k >= 2 && UniqueName(existing, name) == Candidate(base, ext, k);
      var digits := NatToString(k);
      forall c | c in Candidate(base, ext, k)
        ensures c in name || c == ' ' || c == '(' || c == ')' || IsDigit(c)
      {
        if c in base {
          assert c in base + ext;
        } else if c in ext {
          assert c in base + ext;
        } else if c in digits {
          var m :| 0 <= m < |digits| && digits[m] == c;
        }
      }
    }
  }
}
