/**
 * The driver of `scripts/migrate-content.py`: `MarkdownToMDXConverter`
 * walks the Markdown files, writes each converted page next to its target
 * path and counts successes and failures.
 */
module MigrateConverter {
  import opened Options
  import opened Markdown
  import opened MigrateVitePress

  /**
   * A Markdown file found under the source directory: the directory part of
   * its relative path, its name and its text (`None` when reading or
   * writing it fails).
   */
  datatype SourceFile = SourceFile(dir: string, name: string, content: Option<string>)

  /** `rel_path.with_suffix(".mdx")`. */
  function TargetPath(f: SourceFile): (r: string)
    ensures |r| >= 4 && r[|r| - 4..] == ".mdx"
  {
    var r := f.dir + Stem(f.name) + ".mdx";
    assert r[|r| - 4..] == ".mdx";
    r
  }

  /**
   * What converting one file writes with the page conversion `convert`: its
   * target path and converted text, or nothing when it fails.
   */
  function WrittenBy(f: SourceFile, convert: (string, string) -> string): (r: seq<(string, string)>)
    ensures |r| == (if f.content.Some? then 1 else 0)
  {
    match f.content
    case Some(c) => [(TargetPath(f), convert(c, f.name))]
    case None => []
  }

  /** What converting one file adds to `error_files`: its path when it fails. */
  function FailureOf(f: SourceFile): (r: seq<string>)
    ensures |r| == (if f.content.None? then 1 else 0)
  {
    if f.content.None? then [f.dir + f.name] else []
  }

  /** The files that convert, in order, each with its target path and converted text. */
  function Converted(files: seq<SourceFile>, convert: (string, string) -> string): seq<(string, string)>
  {
    if files == [] then [] else Converted(files[..|files| - 1], convert) + WrittenBy(files[|files| - 1], convert)
  }

  /** The paths of the files that fail, in order. */
  function Failed(files: seq<SourceFile>): seq<string>
  {
    if files == [] then [] else Failed(files[..|files| - 1]) + FailureOf(files[|files| - 1])
  }

  /** One more file extends both records by its own outcome. */
  lemma ConvertedStep(files: seq<SourceFile>, i: nat, convert: (string, string) -> string)
    requires i < |files|
    ensures Converted(files[..i + 1], convert) == Converted(files[..i], convert) + WrittenBy(files[i], convert)
    ensures Failed(files[..i + 1]) == Failed(files[..i]) + FailureOf(files[i])
  {
    assert files[..i + 1][..i] == files[..i];
  }

  /** Every file either converts or is reported as failed. */
  lemma {:induction false} ConvertedOrFailed(files: seq<SourceFile>, convert: (string, string) -> string)
    ensures |Converted(files, convert)| + |Failed(files)| == |files|
    decreases |files|
  {
    if files != [] {
      ConvertedOrFailed(files[..|files| - 1], convert);
    }
  }

  /** Every page `convert_content` (as written) writes opens with a frontmatter block and goes to an `.mdx` path. */
  lemma {:induction false} ConvertedPages(files: seq<SourceFile>)
    ensures forall p :: p in Converted(files, ConvertContentAsWritten) ==> "---\n" <= p.1 && |p.0| >= 4 && p.0[|p.0| - 4..] == ".mdx"
    decreases |files|
  {
    if files != [] {
      var f := files[|files| - 1];
      ConvertedPages(files[..|files| - 1]);
      if f.content.Some? {
        assert "---\n" <= ConvertContentAsWritten(f.content.value, f.name);
      }
    }
  }

  /** `MarkdownToMDXConverter`: the running counts of `convert_all` and the files written. */
  class Converter {
    var convertedCount: nat
    var errorFiles: seq<string>
    /** The `.mdx` files written: target path and text. */
    var written: seq<(string, string)>
    /** `convert_content`, as written. */
    const convert: (string, string) -> string

    constructor()
      ensures convertedCount == 0 && errorFiles == [] && written == [] && convert == ConvertContentAsWritten
    {
      convert := ConvertContentAsWritten;
      convertedCount := 0;
      errorFiles := [];
      written := [];
    }

    /** The count equals the number of files written. */
    ghost predicate Valid()
      reads this
    {
      convertedCount == |written|
    }

    /** One iteration of `convert_all`'s loop: `convert_file`, counted on success, recorded on failure. */
    method ConvertFile(f: SourceFile)
      requires Valid()
      modifies this
      ensures Valid()
      ensures written == old(written) + WrittenBy(f, convert) && errorFiles == old(errorFiles) + FailureOf(f)
    {
      match f.content
      case Some(c) =>
        written := written + [(TargetPath(f), convert(c, f.name))];
        convertedCount := convertedCount + 1;
      case None =>
        errorFiles := errorFiles + [f.dir + f.name];
    }

    /** `convert_all` over the files the walk finds, in the order it finds them. */
    method ConvertAll(files: seq<SourceFile>)
      requires Valid()
      modifies this
      ensures Valid()
      ensures written == old(written) + Converted(files, convert)
      ensures errorFiles == old(errorFiles) + Failed(files)
    {
      for i := 0 to |files|
        invariant Valid()
        invariant written == old(written) + Converted(files[..i], convert)
        invariant errorFiles == old(errorFiles) + Failed(files[..i])
      {
        ConvertedStep(files, i, convert);
        ghost var w, e := written, errorFiles;
        ConvertFile(files[i]);
        assert written == w + WrittenBy(files[i], convert);
        assert errorFiles == e + FailureOf(files[i]);
      }
      assert files[..|files|] == files;
    }
  }
}
