/**
 * `ContentScanner.scanMedia`: the media files of a folder tree the user
 * granted, collected depth first in listing order, down to a depth bound.
 * The document provider is modelled as a tree of documents; `fromTreeUri`
 * failing is a missing root.
 */
module ContentScanner {
  import opened Wrappers
  import opened Text
  import opened Media

  /** A document of the granted tree: a file with its optional name and type, or a folder with its listing. */
  datatype Doc =
    | File(uri: Uri, name: Option<string>, docType: Option<string>)
    | Dir(uri: Uri, children: seq<Doc>)

  const DEFAULT_NAME: string := "media.bin"
  const OCTET_STREAM: string := "application/octet-stream"

  /** A type the scanner collects: it starts with `image/` or `video/`. */
  predicate IsMediaType(t: string) {
    StartsWith(t, "image/") || StartsWith(t, "video/")
  }

  /** A file whose type is present and a media type. */
  predicate IsMediaFile(f: Doc) {
    f.File? && IsMediaType(f.docType.GetOr(""))
  }

  /** The item recorded for a file. */
  function ItemOf(f: Doc): (r: SelectedItem)
    requires f.File?
    ensures r.uri == f.uri
    ensures f.name.None? ==> r.name == DEFAULT_NAME
    ensures f.name.Some? ==> r.name == f.name.value
    ensures f.docType.Some? ==> r.mime == f.docType.value
    ensures f.docType.None? ==> r.mime == OCTET_STREAM
  {
    SelectedItem(f.uri, f.name.GetOr(DEFAULT_NAME), f.docType.GetOr(OCTET_STREAM))
  }

  /** What `walk(dir, depth)` appends: nothing below the bound, otherwise the listing's contributions in order. */
  function Walked(dir: Doc, depth: int, maxDepth: int): seq<SelectedItem>
    decreases dir, 1
  {
    if !dir.Dir? || depth > maxDepth then [] else Listed(dir.children, depth, maxDepth)
  }

  /** What the `forEach` over a listing found at `depth` appends, entry after entry. */
  function Listed(entries: seq<Doc>, depth: int, maxDepth: int): seq<SelectedItem>
    decreases entries, 0
  {
    if entries == [] then []
    else Listed(entries[..|entries| - 1], depth, maxDepth) + Entry(entries[|entries| - 1], depth, maxDepth)
  }

  /** One entry of a listing at `depth`: a folder is walked one level deeper, a media file is recorded. */
  function Entry(f: Doc, depth: int, maxDepth: int): seq<SelectedItem>
    decreases f, 2
  {
    if f.Dir? then Walked(f, depth + 1, maxDepth)
    else if IsMediaFile(f) then [ItemOf(f)]
    else []
  }

  /** The result of `scanMedia`: nothing without a root or when the root is not a folder. */
  function Scanned(root: Option<Doc>, maxDepth: int): seq<SelectedItem> {
    if root.Some? && root.value.Dir? then Walked(root.value, 0, maxDepth) else []
  }

  /** `f` is a file listed in `dir`, or below it, in a folder no deeper than `maxDepth`; `dir` is at `depth`. */
  predicate Within(dir: Doc, f: Doc, depth: int, maxDepth: int)
    decreases dir
  {
    dir.Dir? && depth <= maxDepth &&
    exists i :: 0 <= i < |dir.children| && ((dir.children[i] == f && f.File?) || Within(dir.children[i], f, depth + 1, maxDepth))
  }

  /** The nested `walk`: appends to `out` what `Walked` says, recursing into sub-folders. */
  method Walk(dir: Doc, depth: int, maxDepth: int, out: seq<SelectedItem>) returns (r: seq<SelectedItem>)
    requires dir.Dir?
    ensures r == out + Walked(dir, depth, maxDepth)
    decreases dir
  {
    if depth > maxDepth {
      return out;
    }
    var entries := dir.children;
    r := out;
    var i := 0;
    assert entries[..0] == [];
    while i < |entries|
      invariant 0 <= i <= |entries|
      invariant r == out + Listed(entries[..i], depth, maxDepth)
    {
      var f := entries[i];
      assert entries[..i + 1][..i] == entries[..i];
      if f.Dir? {
        ghost var before := r;
        r := Walk(f, depth + 1, maxDepth, r);
        assert r == before + Entry(f, depth, maxDepth);
      } else if IsMediaFile(f) {
        r := r + [ItemOf(f)];
      }
      i := i + 1;
    }
    assert entries[..i] == entries;
  }

  /** `scanMedia`. */
  method ScanMedia(root: Option<Doc>, maxDepth: int) returns (r: seq<SelectedItem>)
    ensures r == Scanned(root, maxDepth)
  {
    if root.None? {
      return [];
    }
    r := [];
    if root.value.Dir? {
      r := Walk(root.value, 0, maxDepth, r);
    }
  }

  /** Every collected item is a media file's, with the file's own type. */
  lemma {:induction false} WalkedOnlyMedia(dir: Doc, depth: int, maxDepth: int)
    ensures forall it :: it in Walked(dir, depth, maxDepth) ==> IsMediaType(it.mime)
    decreases dir, 1
  {
    if dir.Dir? && depth <= maxDepth {
      ListedOnlyMedia(dir.children, depth, maxDepth);
    }
  }

  lemma {:induction false} ListedOnlyMedia(entries: seq<Doc>, depth: int, maxDepth: int)
    ensures forall it :: it in Listed(entries, depth, maxDepth) ==> IsMediaType(it.mime)
    decreases entries, 0
  {
    if entries != [] {
      var last := entries[|entries| - 1];
      ListedOnlyMedia(entries[..|entries| - 1], depth, maxDepth);
      if last.Dir? {
        WalkedOnlyMedia(last, depth + 1, maxDepth);
      }
    }
  }

  /** Every media file within the bound is collected. */
  lemma {:induction false} WalkedComplete(dir: Doc, f: Doc, depth: int, maxDepth: int)
    requires Within(dir, f, depth, maxDepth) && IsMediaFile(f)
    ensures ItemOf(f) in Walked(dir, depth, maxDepth)
    decreases dir, 1
  {
    var i :| 0 <= i < |dir.children| && ((dir.children[i] == f && f.File?) || Within(dir.children[i], f, depth + 1, maxDepth));
    ListedComplete(dir.children, i, f, depth, maxDepth);
  }

  lemma {:induction false} ListedComplete(entries: seq<Doc>, i: nat, f: Doc, depth: int, maxDepth: int)
    requires i < |entries| && IsMediaFile(f)
    requires entries[i] == f || Within(entries[i], f, depth + 1, maxDepth)
    ensures ItemOf(f) in Listed(entries, depth, maxDepth)
    decreases entries, 0
  {
    var n := |entries| - 1;
    var init := entries[..n];
    if i < n {
      assert init[i] == entries[i];
      ListedComplete(init, i, f, depth, maxDepth);
    } else if entries[i] == f {
      assert Entry(entries[n], depth, maxDepth) == [ItemOf(f)];
    } else {
      WalkedComplete(entries[n], f, depth + 1, maxDepth);
    }
  }

  /** Every collected item is the item of some media file within the bound. */
  lemma {:induction false} WalkedSound(dir: Doc, it: SelectedItem, depth: int, maxDepth: int)
    requires it in Walked(dir, depth, maxDepth)
    ensures exists f :: Within(dir, f, depth, maxDepth) && IsMediaFile(f) && it == ItemOf(f)
    decreases dir, 1
  {
    var i, f := ListedSound(dir.children, it, depth, maxDepth);
  }

  lemma {:induction false} ListedSound(entries: seq<Doc>, it: SelectedItem, depth: int, maxDepth: int)
    returns (i: nat, f: Doc)
    requires it in Listed(entries, depth, maxDepth)
    ensures i < |entries| && IsMediaFile(f) && it == ItemOf(f)
    ensures (entries[i] == f && f.File?) || Within(entries[i], f, depth + 1, maxDepth)
    decreases entries, 0
  {
    var n := |entries| - 1;
    var init := entries[..n];
    if it in Listed(init, depth, maxDepth) {
      i, f := ListedSound(init, it, depth, maxDepth);
      assert init[i] == entries[i];
    } else if entries[n].Dir? {
      WalkedSound(entries[n], it, depth + 1, maxDepth);
      f :| Within(entries[n], f, depth + 1, maxDepth) && IsMediaFile(f) && it == ItemOf(f);
      i := n;
    } else {
      i, f := n, entries[n];
    }
  }

  /** Files are collected exactly when they are media files within the bound. */
  lemma ScannedExactly(root: Doc, f: Doc, maxDepth: int)
    requires IsMediaFile(f)
    ensures Within(root, f, 0, maxDepth) ==> ItemOf(f) in Scanned(Some(root), maxDepth)
    ensures forall it :: it in Scanned(Some(root), maxDepth) ==>
              exists g :: Within(root, g, 0, maxDepth) && IsMediaFile(g) && it == ItemOf(g)
    ensures forall it :: it in Scanned(Some(root), maxDepth) ==> IsMediaType(it.mime) && it.mime != OCTET_STREAM
  {
    assert !IsMediaType(OCTET_STREAM) by {
      assert OCTET_STREAM[0] == 'a';
    }
    if Within(root, f, 0, maxDepth) {
      WalkedComplete(root, f, 0, maxDepth);
    }
    forall it | it in Scanned(Some(root), maxDepth)
      ensures exists g :: Within(root, g, 0, maxDepth) && IsMediaFile(g) && it == ItemOf(g)
    {
      WalkedSound(root, it, 0, maxDepth);
    }
    WalkedOnlyMedia(root, 0, maxDepth);
  }

  /** Without a root, or with a file as the root, or with a negative bound, nothing is collected. */
  lemma ScannedEmpty(root: Option<Doc>, maxDepth: int)
    ensures root.None? ==> Scanned(root, maxDepth) == []
    ensures root.Some? && root.value.File? ==> Scanned(root, maxDepth) == []
    ensures maxDepth < 0 ==> Scanned(root, maxDepth) == []
  {
  }
}
