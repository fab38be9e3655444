/** The matching rule of `Select.configs`: which entry of the template
    directory is copied over `tsconfig.json` for a chosen answer. The file
    operations themselves are left to the caller. */
module Templates {
  import opened Wrappers

  /** One entry of the directory listing: whether it is a regular file,
      and its name. */
  datatype Entry = Entry(isFile: bool, name: string)

  /** `name.split('.')[0]`: the name up to, not including, its first dot
      (the whole name when it has none). */
  function Stem(name: string): (r: string)
    ensures '.' !in r
    ensures r <= name
    ensures |r| < |name| ==> name[|r|] == '.'
  {
    if name == [] || name[0] == '.' then []
    else [name[0]] + Stem(name[1..])
  }

  /** The three facts in `Stem`'s contract pin the stem down: any text
      with them is the stem. */
  lemma {:induction false} StemUnique(name: string, r: string)
    requires '.' !in r && r <= name
    requires |r| < |name| ==> name[|r|] == '.'
    ensures r == Stem(name)
  {
    if r != [] {
      assert name[0] == r[0];
      StemUnique(name[1..], r[1..]);
    }
  }

  /** An entry is a template for `answer` when it is a file whose stem is
      `answer`. */
  predicate Matches(e: Entry, answer: string) {
    e.isFile && Stem(e.name) == answer
  }

  /** `found` is the first template for `answer` in `files`, or `None`
      when there is none. */
  predicate IsFirstMatch(files: seq<Entry>, answer: string, found: Option<nat>) {
    match found
    case None => forall j :: 0 <= j < |files| ==> !Matches(files[j], answer)
    case Some(i) =>
      i < |files| && Matches(files[i], answer) &&
      forall j :: 0 <= j < i ==> !Matches(files[j], answer)
  }

  /** At most one result is the first match. */
  lemma FirstMatchUnique(files: seq<Entry>, answer: string, a: Option<nat>, b: Option<nat>)
    requires IsFirstMatch(files, answer, a) && IsFirstMatch(files, answer, b)
    ensures a == b
  {
  }

  /** The loop of `configs`: walks the listing in order, skips what is
      not a file, and stops at the first file whose stem is the answer. */
  method Configs(answer: string, files: seq<Entry>) returns (found: Option<nat>)
    ensures IsFirstMatch(files, answer, found)
  {
    found := None;
    var idx := 0;
    while idx < |files|
      invariant idx <= |files|
      invariant found == None
      invariant forall j :: 0 <= j < idx ==> !Matches(files[j], answer)
    {
      var file := files[idx];
      if file.isFile {
        var kind := Stem(file.name);
        if kind == answer {
          found := Some(idx);
          break;
        }
      }
      idx := idx + 1;
    }
  }

  /** The menu's own case: in a directory with `node.json`, a
      sub-directory `react` and `react.json`, the answer `react` picks
      `react.json`. */
  lemma ReactTemplate()
    ensures IsFirstMatch(
      [Entry(true, "node.json"), Entry(false, "react"), Entry(true, "react.json")],
      "react", Some(2))
  {
    StemUnique("node.json", "node");
    StemUnique("react.json", "react");
  }
}
