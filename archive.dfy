/**
 * The entry names of the `/zip` download. The producer thread of `serveZip`
 * opens one entry per item, in catalogue order, named by
 * `sanitizeZipEntryName`. The archive writer refuses an entry name it has
 * already written (a "duplicate entry" error), and nothing in the thread
 * catches that error, so the archive stops at the first repeated name.
 *
 * `ZipAsWritten` and `ProduceZip` describe that behaviour; `ZipEntryNames`
 * is the corrected naming, which makes repeated names unique with the same
 * ` (i)` suffix rule the app already uses for files in the camera folder.
 */
module Archive {
  import opened Media
  import opened Text
  import opened Sanitize
  import opened SaveMedia

  /** The sanitised names, one per item, in catalogue order. */
  function SanitizedNames(items: seq<SelectedItem>): (r: seq<string>)
    ensures |r| == |items|
    ensures forall i :: 0 <= i < |items| ==> r[i] == SanitizeZipEntryName(items[i].name)
  {
    seq(|items|, i requires 0 <= i < |items| => SanitizeZipEntryName(items[i].name))
  }

  predicate Distinct(names: seq<string>) {
    forall i, j :: 0 <= i < j < |names| ==> names[i] != names[j]
  }

  /**
   * Writing `names` into an archive that already holds `seen`: the entries
   * written, and whether the run got to the end rather than stopping at a
   * repeated name.
   */
  function ZipRun(names: seq<string>, seen: set<string>): (r: (seq<string>, bool))
    ensures |r.0| <= |names| && r.0 == names[..|r.0|]
    ensures r.1 ==> r.0 == names
    ensures !r.1 ==> |r.0| < |names|
    decreases |names|
  {
    if names == [] then ([], true)
    else if names[0] in seen then ([], false)
    else
      var rest := ZipRun(names[1..], seen + {names[0]});
      ([names[0]] + rest.0, rest.1)
  }

  /**
   * Where the run stops: the entries written are new and pairwise distinct,
   * and a run cut short stops exactly at the first name already in the
   * archive or already written.
   */
  lemma {:induction false} ZipRunStops(names: seq<string>, seen: set<string>)
    ensures var r := ZipRun(names, seen);
            && (forall i :: 0 <= i < |r.0| ==> r.0[i] !in seen)
            && Distinct(r.0)
            && (!r.1 ==> names[|r.0|] in seen || names[|r.0|] in r.0)
    decreases |names|
  {
    if names != [] && names[0] !in seen {
      var rest := ZipRun(names[1..], seen + {names[0]});
      ZipRunStops(names[1..], seen + {names[0]});
      assert !rest.1 ==> names[1..][|rest.0|] == names[|rest.0| + 1];
    }
  }

  /** The archive `serveZip` produces as written. */
  function ZipAsWritten(items: seq<SelectedItem>): (seq<string>, bool) {
    ZipRun(SanitizedNames(items), {})
  }

  /**
   * The producer loop of `serveZip`: put an entry per item, failing on the
   * first name already put; `written` are the entries in the archive.
   */
  method ProduceZip(items: seq<SelectedItem>) returns (written: seq<string>, completed: bool)
    ensures (written, completed) == ZipAsWritten(items)
  {
    var names := SanitizedNames(items);
    var seen: set<string> := {};
    written := [];
    var i := 0;
    assert names[i..] == names;
    assert written + ZipRun(names, {}).0 == ZipRun(names, {}).0;
    while i < |items|
      invariant 0 <= i <= |items|
      invariant ZipRun(names, {}).0 == written + ZipRun(names[i..], seen).0
      invariant ZipRun(names, {}).1 == ZipRun(names[i..], seen).1
    {
      var name := SanitizeZipEntryName(items[i].name);
      assert names[i..][0] == name && names[i..][1..] == names[i + 1..];
      if name in seen {
        assert ZipRun(names[i..], seen) == ([], false);
        assert written + [] == written;
        return written, false;
      }
      ghost var rest := ZipRun(names[i + 1..], seen + {name});
      assert ZipRun(names[i..], seen) == ([name] + rest.0, rest.1);
      assert written + ([name] + rest.0) == (written + [name]) + rest.0;
      seen := seen + {name};
      written := written + [name];
      i := i + 1;
    }
    assert names[i..] == [];
    assert written + [] == written;
    completed := true;
  }

  /** The run ends normally exactly when no name repeats, and then writes every name. */
  lemma {:induction false} ZipRunCompletes(names: seq<string>, seen: set<string>)
    ensures ZipRun(names, seen).1 <==> Distinct(names) && forall i :: 0 <= i < |names| ==> names[i] !in seen
    decreases |names|
  {
    if names != [] && names[0] !in seen {
      ZipRunCompletes(names[1..], seen + {names[0]});
      if Distinct(names) && forall i :: 0 <= i < |names| ==> names[i] !in seen {
        assert forall i :: 0 <= i < |names[1..]| ==> names[1..][i] !in seen + {names[0]} by {
          forall i | 0 <= i < |names[1..]|
            ensures names[1..][i] !in seen + {names[0]}
          {
            assert names[1..][i] == names[i + 1];
          }
        }
      }
    }
  }

  /** The download holds every item exactly when the sanitised names are pairwise different. */
  lemma ZipAsWrittenCompletes(items: seq<SelectedItem>)
    ensures ZipAsWritten(items).1 <==> Distinct(SanitizedNames(items))
    ensures ZipAsWritten(items).1 ==> ZipAsWritten(items).0 == SanitizedNames(items)
  {
    ZipRunCompletes(SanitizedNames(items), {});
  }

  /**
   * Two shared items with the same separator-free name, such as two photos
   * called `IMG.jpg` from different folders, stop the archive after the first.
   */
  lemma DuplicateNameStopsArchive(u1: Uri, u2: Uri, name: string, mime: string)
    requires '/' !in name && '\\' !in name
    ensures ZipAsWritten([SelectedItem(u1, name, mime), SelectedItem(u2, name, mime)]) == ([name], false)
  {
    var items := [SelectedItem(u1, name, mime), SelectedItem(u2, name, mime)];
    SanitizeZipEntryNameClean(name);
    var names := SanitizedNames(items);
    assert names == [name, name];
    assert names[1..] == [name];
    assert ZipRun([name], {name}) == ([], false);
    assert ZipRun(names, {}) == ([name] + ZipRun([name], {name}).0, ZipRun([name], {name}).1);
    assert [name] + [] == [name];
    assert ZipAsWritten(items) == ZipRun(names, {});
  }

  lemma SanitizeZipEntryNameClean(name: string)
    requires '/' !in name && '\\' !in name
    ensures SanitizeZipEntryName(name) == name
  {
    var r := SanitizeZipEntryName(name);
    assert forall i :: 0 <= i < |name| ==> r[i] == name[i];
  }

  /** Sanitising itself can create the clash: `a/b.jpg` and `a\b.jpg` both become `a_b.jpg`. */
  lemma SanitizedClashStopsArchive(u1: Uri, u2: Uri)
    ensures !ZipAsWritten([SelectedItem(u1, "a/b.jpg", "image/jpeg"), SelectedItem(u2, "a\\b.jpg", "image/jpeg")]).1
  {
    var paths := [SelectedItem(u1, "a/b.jpg", "image/jpeg"), SelectedItem(u2, "a\\b.jpg", "image/jpeg")];
    SanitizeZipEntryNameExample();
    ZipAsWrittenCompletes(paths);
    assert SanitizedNames(paths)[0] == SanitizedNames(paths)[1];
  }

  /**
   * Names made unique against the entries already written: each one is the
   * name `uniqueLegacyFile` would pick in a folder holding those entries.
   */
  function UniqueNames(names: seq<string>, seen: set<string>): (r: seq<string>)
    ensures |r| == |names|
    ensures forall i :: 0 <= i < |r| ==> r[i] !in seen
    ensures Distinct(r)
    decreases |names|
  {
    if names == [] then []
    else
      var n := UniqueName(seen, names[0]);
      [n] + UniqueNames(names[1..], seen + {n})
  }

  /** The corrected entry names: sanitised, then made unique in catalogue order. */
  function ZipEntryNames(items: seq<SelectedItem>): (r: seq<string>)
    ensures |r| == |items| && Distinct(r)
  {
    UniqueNames(SanitizedNames(items), {})
  }

  /** Names that are already distinct and unused are kept as they are. */
  lemma {:induction false} UniqueNamesKeepsDistinct(names: seq<string>, seen: set<string>)
    requires Distinct(names)
    requires forall i :: 0 <= i < |names| ==> names[i] !in seen
    ensures UniqueNames(names, seen) == names
    decreases |names|
  {
    if names != [] {
      assert forall i :: 0 <= i < |names[1..]| ==> names[1..][i] == names[i + 1];
      UniqueNamesKeepsDistinct(names[1..], seen + {names[0]});
    }
  }

  /** A unique name adds only spaces, parentheses and digits to the name it starts from. */
  lemma {:induction false} UniqueNamesChars(names: seq<string>, seen: set<string>, k: nat)
    requires k < |names|
    ensures forall c :: c in UniqueNames(names, seen)[k] ==> c in names[k] || c == ' ' || c == '(' || c == ')' || IsDigit(c)
    decreases k
  {
    var n := UniqueName(seen, names[0]);
    if k == 0 {
      UniqueNameChars(seen, names[0]);
    } else {
      UniqueNamesChars(names[1..], seen + {n}, k - 1);
    }
  }

  /**
   * With the corrected naming the archive always holds every item, under
   * names without path separators; when the sanitised names were already
   * distinct they are exactly the names `serveZip` writes today.
   */
  lemma ZipEntryNamesSound(items: seq<SelectedItem>)
    ensures ZipRun(ZipEntryNames(items), {}) == (ZipEntryNames(items), true)
    ensures forall k, c :: 0 <= k < |items| && c in ZipEntryNames(items)[k] ==> !IsSeparator(c)
    ensures Distinct(SanitizedNames(items)) ==> ZipEntryNames(items) == ZipAsWritten(items).0
  {
    var names := SanitizedNames(items);
    ZipRunCompletes(ZipEntryNames(items), {});
    forall k, c | 0 <= k < |items| && c in ZipEntryNames(items)[k]
      ensures !IsSeparator(c)
    {
      UniqueNamesChars(names, {}, k);
      if c in names[k] {
        var m :| 0 <= m < |names[k]| && names[k][m] == c;
      }
    }
    if Distinct(names) {
      UniqueNamesKeepsDistinct(names, {});
      ZipAsWrittenCompletes(items);
    }
  }

  /**
   * The entries `serveZip` puts into the archive as written: item `i` under
   * its sanitised name, for as many items as the run gets through.
   */
  function WrittenEntries(items: seq<SelectedItem>): (r: seq<(string, Uri)>)
    ensures |r| <= |items|
    ensures forall i :: 0 <= i < |r| ==> r[i] == (SanitizeZipEntryName(items[i].name), items[i].uri)
  {
    var names := ZipAsWritten(items).0;
    seq(|names|, i requires 0 <= i < |names| => (names[i], items[i].uri))
  }

  /** Every item reaches the archive exactly when the sanitised names never repeat; otherwise the run ends early. */
  lemma WrittenEntriesComplete(items: seq<SelectedItem>)
    ensures |WrittenEntries(items)| == |items| <==> Distinct(SanitizedNames(items))
    ensures ZipAsWritten(items).1 <==> Distinct(SanitizedNames(items))
  {
    ZipAsWrittenCompletes(items);
  }

  /**
   * The corrected archive's entries: every item, each under its own name,
   * holding that item's bytes; the same entries as today whenever the
   * sanitised names never repeat.
   */
  function ZipEntries(items: seq<SelectedItem>): (r: seq<(string, Uri)>)
    ensures |r| == |items|
    ensures forall i :: 0 <= i < |items| ==> r[i].1 == items[i].uri
    ensures forall i, j :: 0 <= i < j < |r| ==> r[i].0 != r[j].0
    ensures Distinct(SanitizedNames(items)) ==> r == WrittenEntries(items)
  {
    var names := ZipEntryNames(items);
    ZipEntryNamesSound(items);
    seq(|items|, i requires 0 <= i < |items| => (names[i], items[i].uri))
  }
}
