/**
 * `FileLoader.categorize_files` of lib/file_loader.py: uploaded files are sorted by the
 * suffix of their names into JSON files and archives; anything else is dropped.
 */
module FileLoader {
  import opened Seqs
  import opened Strings

  /** An uploaded file: only its name decides where it goes. */
  datatype Upload = Upload(name: string, data: seq<bv8>)

  predicate IsJsonName(name: string) {
    EndsWith(name, ".json")
  }

  /** `name.endswith(('.zip', '.tar', '.tar.gz', '.gz'))`. */
  predicate HasArchiveSuffix(name: string) {
    EndsWith(name, ".zip") || EndsWith(name, ".tar") || EndsWith(name, ".tar.gz") || EndsWith(name, ".gz")
  }

  /** The `elif` branch: an archive suffix on a name that is not a JSON name. */
  predicate IsArchiveName(name: string) {
    !IsJsonName(name) && HasArchiveSuffix(name)
  }

  predicate IsJsonUpload(f: Upload) { IsJsonName(f.name) }
  predicate IsArchiveUpload(f: Upload) { IsArchiveName(f.name) }
  predicate IsOtherUpload(f: Upload) { !IsJsonName(f.name) && !HasArchiveSuffix(f.name) }

  /** The loop of `categorize_files`: each file is appended to at most one of the two lists. */
  function CategorizeFiles(files: seq<Upload>): (seq<Upload>, seq<Upload>)
    decreases |files|
  {
    if files == [] then ([], [])
    else
      var n := |files| - 1;
      var prev := CategorizeFiles(files[..n]);
      var f := files[n];
      if IsJsonName(f.name) then (prev.0 + [f], prev.1)
      else if HasArchiveSuffix(f.name) then (prev.0, prev.1 + [f])
      else prev
  }

  /** `categorize_files`: one pass over the uploads, appending each to the list its name selects. */
  method Categorize(files: seq<Upload>) returns (json: seq<Upload>, archives: seq<Upload>)
    ensures (json, archives) == CategorizeFiles(files)
    ensures json == Filter(IsJsonUpload, files) && archives == Filter(IsArchiveUpload, files)
  {
    json, archives := [], [];
    var i := 0;
    while i < |files|
      invariant i <= |files|
      invariant (json, archives) == CategorizeFiles(files[..i])
    {
      var f := files[i];
      assert files[..i + 1][..i] == files[..i];
      if IsJsonName(f.name) {
        json := json + [f];
      } else if HasArchiveSuffix(f.name) {
        archives := archives + [f];
      }
      i := i + 1;
    }
    assert files[..i] == files;
    CategorizeIsFilters(files);
  }

  /** The loop is two filters over the input: the JSON files and the archives, each in upload order. */
  lemma {:induction false} CategorizeIsFilters(files: seq<Upload>)
    ensures CategorizeFiles(files) == (Filter(IsJsonUpload, files), Filter(IsArchiveUpload, files))
    decreases |files|
  {
    if files != [] {
      var n := |files| - 1;
      var front, f := files[..n], files[n];
      var prev := CategorizeFiles(front);
      CategorizeIsFilters(front);
      assert files == front + [f];
      FilterAppend(IsJsonUpload, front, [f]);
      FilterAppend(IsArchiveUpload, front, [f]);
      assert [f][1..] == [];
      if IsJsonName(f.name) {
        assert CategorizeFiles(files) == (prev.0 + [f], prev.1);
        assert Filter(IsJsonUpload, [f]) == [f] && Filter(IsArchiveUpload, [f]) == [];
        assert Filter(IsJsonUpload, files) == Filter(IsJsonUpload, front) + [f];
        assert Filter(IsArchiveUpload, files) == Filter(IsArchiveUpload, front);
      } else if HasArchiveSuffix(f.name) {
        assert CategorizeFiles(files) == (prev.0, prev.1 + [f]);
        assert Filter(IsJsonUpload, [f]) == [] && Filter(IsArchiveUpload, [f]) == [f];
        assert Filter(IsJsonUpload, files) == Filter(IsJsonUpload, front);
        assert Filter(IsArchiveUpload, files) == Filter(IsArchiveUpload, front) + [f];
      } else {
        assert CategorizeFiles(files) == prev;
        assert Filter(IsJsonUpload, [f]) == [] && Filter(IsArchiveUpload, [f]) == [];
        assert Filter(IsJsonUpload, files) == Filter(IsJsonUpload, front);
        assert Filter(IsArchiveUpload, files) == Filter(IsArchiveUpload, front);
      }
    }
  }

  /**
   * The two lists hold exactly the JSON and archive files; a file with neither kind of name
   * is in neither list; and every file is counted once, in one list or among the dropped ones.
   */
  lemma {:induction false} CategorizePartitions(files: seq<Upload>)
    ensures var (json, archives) := CategorizeFiles(files);
      && (forall i :: 0 <= i < |json| ==> IsJsonName(json[i].name))
      && (forall i :: 0 <= i < |archives| ==> IsArchiveName(archives[i].name))
      && (forall f :: f in files && IsJsonName(f.name) ==> f in json)
      && (forall f :: f in files && IsArchiveName(f.name) ==> f in archives)
      && (forall f :: IsOtherUpload(f) ==> f !in json && f !in archives)
      && |json| + |archives| + |Filter(IsOtherUpload, files)| == |files|
  {
    CategorizeIsFilters(files);
    forall f | f in files && IsJsonName(f.name) ensures f in Filter(IsJsonUpload, files) {
      var i :| 0 <= i < |files| && files[i] == f;
      assert IsJsonUpload(files[i]);
    }
    forall f | f in files && IsArchiveName(f.name) ensures f in Filter(IsArchiveUpload, files) {
      var i :| 0 <= i < |files| && files[i] == f;
      assert IsArchiveUpload(files[i]);
    }
    ThreeWayCount(files);
  }

  lemma {:induction false} ThreeWayCount(files: seq<Upload>)
    ensures |Filter(IsJsonUpload, files)| + |Filter(IsArchiveUpload, files)| + |Filter(IsOtherUpload, files)| == |files|
    decreases |files|
  {
    if files != [] {
      ThreeWayCount(files[1..]);
    }
  }

  /** A name ending in `.tar.gz` also ends in `.gz`: the `.tar.gz` alternative never changes the outcome. */
  lemma TarGzIsGz(name: string)
    requires EndsWith(name, ".tar.gz")
    ensures EndsWith(name, ".gz")
  {
    assert name[|name| - 3..] == name[|name| - 7..][4..];
  }
}
