/**
 * The code-set reader of src/filesystem/read_code.py: a best-effort read of
 * every file under a project's directory, and its rendering as markdown.
 * The directory walk and the file reads are given as data: a walk is the
 * sequence of directories `os.walk` visits, each with its files in order and
 * the outcome of opening and reading each one.
 */
module CodeReader {
  import Paths
  import Projects

  /** What reading one file produced: its text, or any failure. */
  datatype ReadOutcome = Read(content: string) | Unreadable

  datatype WalkedFile = WalkedFile(name: string, outcome: ReadOutcome)

  /** One step of the walk: a directory and the files directly in it. */
  datatype WalkedDir = WalkedDir(root: string, files: seq<WalkedFile>)

  /** One `{filename, code}` entry of the code set. */
  datatype CodeFile = CodeFile(filename: string, code: string)

  /** The project directory a reader is created for: it ends with the normalised name. */
  function DirectoryPath(projectsDir: string, projectName: string): (r: string)
    ensures var slug := Paths.Slug(projectName);
      |slug| <= |r| && r[|r| - |slug|..] == slug
  {
    Paths.Join(projectsDir, Paths.Slug(projectName))
  }

  /** The reader and the project manager derive the same directory from a project name. */
  lemma DirectoryPathIsProjectPath(pm: Projects.ProjectManager, projectName: string)
    ensures DirectoryPath(pm.projectsDir, projectName) == pm.GetProjectPath(projectName)
  {
  }

  // ---------------------------------------------------------------------
  // The code set read from a walk
  // ---------------------------------------------------------------------

  /** The entry a file contributes: one entry if it was read, none if it failed. */
  function Entry(root: string, f: WalkedFile): (r: seq<CodeFile>)
    ensures f.outcome.Unreadable? <==> r == []
    ensures f.outcome.Read? ==> r == [CodeFile(Paths.Join(root, f.name), f.outcome.content)]
  {
    match f.outcome
    case Read(c) => [CodeFile(Paths.Join(root, f.name), c)]
    case Unreadable => []
  }

  /** The entries of the files of one directory, in order. */
  function ReadableIn(root: string, files: seq<WalkedFile>): (r: seq<CodeFile>)
    ensures |r| <= |files|
  {
    if files == [] then []
    else ReadableIn(root, files[..|files| - 1]) + Entry(root, files[|files| - 1])
  }

  /** When every file of a directory is read, each gives its entry, at its own position. */
  lemma {:induction false} ReadableInAllRead(root: string, files: seq<WalkedFile>)
    requires forall i :: 0 <= i < |files| ==> files[i].outcome.Read?
    ensures |ReadableIn(root, files)| == |files|
    ensures forall i :: 0 <= i < |files| ==>
      ReadableIn(root, files)[i] == CodeFile(Paths.Join(root, files[i].name), files[i].outcome.content)
    decreases |files|
  {
    if files != [] {
      var init := files[..|files| - 1];
      var last := files[|files| - 1];
      ReadableInAllRead(root, init);
      var before, entry := ReadableIn(root, init), Entry(root, last);
      assert entry == [CodeFile(Paths.Join(root, last.name), last.outcome.content)];
      assert ReadableIn(root, files) == before + entry;
      forall i | 0 <= i < |files|
        ensures ReadableIn(root, files)[i] == CodeFile(Paths.Join(root, files[i].name), files[i].outcome.content)
      {
        if i < |init| {
          assert files[i] == init[i];
          assert ReadableIn(root, files)[i] == before[i];
        } else {
          assert ReadableIn(root, files)[i] == entry[0];
        }
      }
    }
  }

  /** When no file of a directory can be read, it contributes nothing. */
  lemma {:induction false} ReadableInNoneRead(root: string, files: seq<WalkedFile>)
    requires forall i :: 0 <= i < |files| ==> files[i].outcome.Unreadable?
    ensures ReadableIn(root, files) == []
    decreases |files|
  {
    if files != [] {
      ReadableInNoneRead(root, files[..|files| - 1]);
    }
  }

  /** The number of files the walk visits. */
  function FileCount(walk: seq<WalkedDir>): nat {
    if walk == [] then 0 else FileCount(walk[..|walk| - 1]) + |walk[|walk| - 1].files|
  }

  /** Every file in the walk was read successfully. */
  predicate AllRead(walk: seq<WalkedDir>) {
    forall d, f :: d in walk && f in d.files ==> f.outcome.Read?
  }

  /** No file in the walk could be read. */
  predicate NoneRead(walk: seq<WalkedDir>) {
    forall d, f :: d in walk && f in d.files ==> f.outcome.Unreadable?
  }

  /** The code set of a walk: the successfully read files in walk order, failures skipped. */
  function Readable(walk: seq<WalkedDir>): (r: seq<CodeFile>)
    ensures |r| <= FileCount(walk)
  {
    if walk == [] then []
    else
      var d := walk[|walk| - 1];
      Readable(walk[..|walk| - 1]) + ReadableIn(d.root, d.files)
  }

  /** When every read succeeds, the code set has one entry per visited file. */
  lemma {:induction false} ReadableAllRead(walk: seq<WalkedDir>)
    requires AllRead(walk)
    ensures |Readable(walk)| == FileCount(walk)
    decreases |walk|
  {
    if walk != [] {
      var d := walk[|walk| - 1];
      assert d in walk;
      forall i | 0 <= i < |d.files|
        ensures d.files[i].outcome.Read?
      {
        assert d.files[i] in d.files;
      }
      ReadableInAllRead(d.root, d.files);
      var init := walk[..|walk| - 1];
      assert AllRead(init) by {
        forall e, f | e in init && f in e.files
          ensures f.outcome.Read?
        {
          assert e in walk;
        }
      }
      ReadableAllRead(init);
    }
  }

  /** When every read fails, the code set is empty, and no error is raised. */
  lemma {:induction false} ReadableNoneRead(walk: seq<WalkedDir>)
    requires NoneRead(walk)
    ensures Readable(walk) == []
    decreases |walk|
  {
    if walk != [] {
      var d := walk[|walk| - 1];
      assert d in walk;
      forall i | 0 <= i < |d.files|
        ensures d.files[i].outcome.Unreadable?
      {
        assert d.files[i] in d.files;
      }
      ReadableInNoneRead(d.root, d.files);
      var init := walk[..|walk| - 1];
      assert NoneRead(init) by {
        forall e, f | e in init && f in e.files
          ensures f.outcome.Unreadable?
        {
          assert e in walk;
        }
      }
      ReadableNoneRead(init);
    }
  }

  /** Reading a walk in two parts and concatenating gives the same code set. */
  lemma {:induction false} ReadableAppend(w1: seq<WalkedDir>, w2: seq<WalkedDir>)
    ensures Readable(w1 + w2) == Readable(w1) + Readable(w2)
    decreases |w2|
  {
    if w2 == [] {
      assert w1 + w2 == w1;
    } else {
      var d := w2[|w2| - 1];
      assert (w1 + w2)[..|w1 + w2| - 1] == w1 + w2[..|w2| - 1];
      ReadableAppend(w1, w2[..|w2| - 1]);
    }
  }

  // ---------------------------------------------------------------------
  // Markdown rendering
  // ---------------------------------------------------------------------

  /** The block one code-set entry contributes. */
  function Block(f: CodeFile): (r: string)
    ensures |r| == |f.filename| + |f.code| + 22
  {
    ("### " + f.filename + ":\n\n") + ("```\n" + f.code + "\n```\n\n") + "---\n\n"
  }

  /**
   * The markdown of a code set: the blocks of its entries, in entry order.
   * Every entry adds at least its 22 characters of framing, so the markdown is
   * empty exactly for the empty code set, and otherwise opens with a heading.
   */
  function Markdown(codeSet: seq<CodeFile>): (r: string)
    ensures |r| >= 22 * |codeSet|
    ensures r == "" <==> codeSet == []
    ensures codeSet != [] ==> r[..4] == "### "
  {
    if codeSet == [] then "" else Markdown(codeSet[..|codeSet| - 1]) + Block(codeSet[|codeSet| - 1])
  }

  /** Rendering distributes over concatenation of code sets. */
  lemma {:induction false} MarkdownAppend(xs: seq<CodeFile>, ys: seq<CodeFile>)
    ensures Markdown(xs + ys) == Markdown(xs) + Markdown(ys)
    decreases |ys|
  {
    if ys == [] {
      assert xs + ys == xs;
    } else {
      var init, last := ys[..|ys| - 1], ys[|ys| - 1];
      assert (xs + ys)[..|xs + ys| - 1] == xs + init;
      assert (xs + ys)[|xs + ys| - 1] == last;
      MarkdownAppend(xs, init);
      calc {
        Markdown(xs + ys);
        Markdown(xs + init) + Block(last);
        (Markdown(xs) + Markdown(init)) + Block(last);
        Markdown(xs) + (Markdown(init) + Block(last));
        Markdown(xs) + Markdown(ys);
      }
    }
  }

  /** A single entry renders as exactly its block, and an empty code set as "". */
  lemma MarkdownSingle(f: CodeFile)
    ensures Markdown([f]) == Block(f)
    ensures Markdown([]) == ""
  {
    assert [f][..0] == [];
  }

  /** The summed size of the entries' blocks: 22 characters of framing plus name and code. */
  function BlocksLength(codeSet: seq<CodeFile>): nat {
    if codeSet == [] then 0
    else 22 + |codeSet[0].filename| + |codeSet[0].code| + BlocksLength(codeSet[1..])
  }

  /** The markdown is exactly as long as the sum of its blocks. */
  lemma {:induction false} MarkdownLength(codeSet: seq<CodeFile>)
    ensures |Markdown(codeSet)| == BlocksLength(codeSet)
    decreases |codeSet|
  {
    if codeSet != [] {
      assert codeSet == [codeSet[0]] + codeSet[1..];
      MarkdownAppend([codeSet[0]], codeSet[1..]);
      MarkdownSingle(codeSet[0]);
      MarkdownLength(codeSet[1..]);
    }
  }

  /** One more file of a directory adds that file's entry at the end. */
  lemma ReadableInStep(root: string, files: seq<WalkedFile>, j: nat)
    requires j < |files|
    ensures ReadableIn(root, files[..j + 1]) == ReadableIn(root, files[..j]) + Entry(root, files[j])
  {
    assert files[..j + 1][..j] == files[..j];
  }

  /** The inner loop's step: appending a file's entry extends the directory's entries by one file. */
  lemma ReadDirectoryInnerStep(before: seq<CodeFile>, acc: seq<CodeFile>, root: string, files: seq<WalkedFile>, j: nat)
    requires j < |files|
    requires acc == before + ReadableIn(root, files[..j])
    ensures acc + Entry(root, files[j]) == before + ReadableIn(root, files[..j + 1])
  {
    ReadableInStep(root, files, j);
  }

  /** The outer loop's step: a whole directory's entries extend the code set by one directory. */
  lemma ReadDirectoryOuterStep(walk: seq<WalkedDir>, i: nat, acc: seq<CodeFile>)
    requires i < |walk|
    requires acc == Readable(walk[..i]) + ReadableIn(walk[i].root, walk[i].files[..|walk[i].files|])
    ensures acc == Readable(walk[..i + 1])
  {
    assert walk[i].files[..|walk[i].files|] == walk[i].files;
    ReadableStep(walk, i);
  }

  /** One more directory of the walk adds that directory's entries at the end. */
  lemma ReadableStep(walk: seq<WalkedDir>, i: nat)
    requires i < |walk|
    ensures Readable(walk[..i + 1]) == Readable(walk[..i]) + ReadableIn(walk[i].root, walk[i].files)
  {
    assert walk[..i + 1][..i] == walk[..i];
  }

  /** One more entry of the code set adds its block at the end. */
  lemma MarkdownStep(codeSet: seq<CodeFile>, i: nat)
    requires i < |codeSet|
    ensures Markdown(codeSet[..i + 1]) == Markdown(codeSet[..i]) + Block(codeSet[i])
  {
    assert codeSet[..i + 1][..i] == codeSet[..i];
  }

  lemma AppendThree(m: string, a: string, b: string, c: string)
    ensures m + a + b + c == m + (a + b + c)
  {
  }

  // ---------------------------------------------------------------------
  // The reader as the source runs it
  // ---------------------------------------------------------------------

  class ReadCode {
    const directoryPath: string

    constructor (projectsDir: string, projectName: string)
      ensures directoryPath == DirectoryPath(projectsDir, projectName)
    {
      directoryPath := Paths.Join(projectsDir, Paths.Slug(projectName));
    }

    /**
     * `read_directory`: `walk` is what walking `directoryPath` visits, so it
     * starts at that directory. Every successfully read file gives one entry,
     * in walk order; a failed read is skipped and never makes the whole read fail.
     */
    method ReadDirectory(walk: seq<WalkedDir>) returns (filesList: seq<CodeFile>)
      requires walk != [] ==> walk[0].root == directoryPath
      ensures filesList == Readable(walk)
    {
      filesList := [];
      var i := 0;
      while i < |walk|
        invariant 0 <= i <= |walk|
        invariant filesList == Readable(walk[..i])
      {
        var root, files := walk[i].root, walk[i].files;
        ghost var before := filesList;
        var j := 0;
        while j < |files|
          invariant 0 <= j <= |files|
          invariant filesList == before + ReadableIn(root, files[..j])
        {
          var file := files[j];
          var filePath := Paths.Join(root, file.name);
          ReadDirectoryInnerStep(before, filesList, root, files, j);
          match file.outcome {
            case Read(content) =>
              filesList := filesList + [CodeFile(filePath, content)];
            case Unreadable =>
          }
          j := j + 1;
        }
        ReadDirectoryOuterStep(walk, i, filesList);
        i := i + 1;
      }
      assert walk[..i] == walk;
    }

    /** `code_set_to_markdown`: the markdown of the code set read from `walk`. */
    method CodeSetToMarkdown(walk: seq<WalkedDir>) returns (markdown: string)
      requires walk != [] ==> walk[0].root == directoryPath
      ensures markdown == Markdown(Readable(walk))
    {
      var codeSet := ReadDirectory(walk);
      markdown := "";
      var i := 0;
      while i < |codeSet|
        invariant 0 <= i <= |codeSet|
        invariant markdown == Markdown(codeSet[..i])
      {
        var code := codeSet[i];
        ghost var before := markdown;
        markdown := markdown + ("### " + code.filename + ":\n\n");
        markdown := markdown + ("```\n" + code.code + "\n```\n\n");
        markdown := markdown + "---\n\n";
        AppendThree(before, "### " + code.filename + ":\n\n", "```\n" + code.code + "\n```\n\n", "---\n\n");
        MarkdownStep(codeSet, i);
        i := i + 1;
      }
      assert codeSet[..i] == codeSet;
    }
  }
}
