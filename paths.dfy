/** The two pieces of `pathlib.PurePosixPath` that `FileTool.forward` uses to
    pick a reader: the final component (`.name`) and its extension
    (`.suffix`). */
module Paths {
  import opened Environment
  import opened Strings

  /** Every component is empty or ".", as in "", "/" and "./.". */
  predicate NoNamedComponent(components: seq<string>)
  {
    forall k :: 0 <= k < |components| ==> components[k] == "" || components[k] == "."
  }

  /** Appending an empty or "." component keeps every unnamed tail
      unnamed. */
  lemma UnnamedTailExtends(prefix: seq<string>, last: string)
    requires last == "" || last == "."
    ensures forall j :: 0 < j <= |prefix| && NoNamedComponent(prefix[j..])
                        ==> NoNamedComponent((prefix + [last])[j..])
  {
    forall j | 0 < j <= |prefix| && NoNamedComponent(prefix[j..])
      ensures NoNamedComponent((prefix + [last])[j..])
    {
      assert (prefix + [last])[j..] == prefix[j..] + [last];
    }
  }

  /** The last of `components` that is neither empty nor ".", or "" when
      there is none: pathlib drops empty and "." components when it parses. */
  function LastNamed(components: seq<string>): (r: string)
    requires forall k :: 0 <= k < |components| ==> '/' !in components[k]
    ensures '/' !in r && r != "."
    ensures r == "" <==> NoNamedComponent(components)
    ensures r != "" ==> exists k :: 0 <= k < |components| && r == components[k]
                                    && NoNamedComponent(components[k + 1..])
  {
    if |components| == 0 then ""
    else if components[|components| - 1] == "" || components[|components| - 1] == "." then
      var prefix := components[..|components| - 1];
      assert components == prefix + [components[|components| - 1]];
      var r := LastNamed(prefix);
      UnnamedTailExtends(prefix, components[|components| - 1]);
      r
    else components[|components| - 1]
  }

  /** `PurePosixPath(path).name`. */
  function Name(path: string): (r: string)
    ensures '/' !in r && r != "."
    ensures r == "" <==> NoNamedComponent(Split(path, '/'))
  {
    LastNamed(Split(path, '/'))
  }

  /** A plain file name is its own name. */
  lemma NameOfFileName(file: string)
    requires '/' !in file && file != "" && file != "."
    ensures Name(file) == file
  {
    SplitWithoutSeparator(file, '/');
  }

  /** The name is what follows the last '/', whatever the directory part is. */
  lemma NameInDirectory(dir: string, file: string)
    requires '/' !in file && file != "" && file != "."
    ensures Name(dir + "/" + file) == file
  {
    SplitBeforeSuffix(dir, file, '/');
  }

  /** Trailing slashes do not change the name. */
  lemma NameIgnoresTrailingSlash(path: string)
    ensures Name(path + "/") == Name(path)
  {
    SplitBeforeSuffix(path, "", '/');
    assert path + "/" == path + ['/'] + "";
    var cs := Split(path, '/');
    assert (cs + [""])[..|cs|] == cs;
  }

  /** The dot at `i` is the last dot of `name`. */
  ghost predicate LastDotAt(name: string, i: nat)
  {
    i < |name| && name[i] == '.' && '.' !in name[i + 1..]
  }

  lemma LastDotUnique(name: string, i: nat, j: nat)
    requires LastDotAt(name, i) && LastDotAt(name, j)
    ensures i == j
  {
  }

  lemma LastDotOnly(name: string, i: nat)
    requires LastDotAt(name, i)
    ensures forall j: nat :: LastDotAt(name, j) ==> j == i
  {
    forall j | LastDotAt(name, j) ensures j == i { LastDotUnique(name, i, j); }
  }

  /** `PurePath.suffix` of a final component `name`: the text from its last
      dot on, and "" when there is no dot or the only dot is leading. A name
      ending in a dot gets "" here, which newer Python versions may not
      agree on; the contract leaves that case open. */
  function Suffix(name: string): (r: string)
    ensures '.' !in name ==> r == ""
    ensures LastDotAt(name, 0) ==> r == ""
    ensures forall i: nat :: LastDotAt(name, i) && 0 < i < |name| - 1 ==> r == name[i..]
    ensures r != "" ==> 0 < |name| - |r| && LastDotAt(name, |name| - |r|)
                        && r == name[|name| - |r|..]
  {
    match LastIndexOf(name, '.')
    case None => ""
    case Some(i) =>
      assert LastDotAt(name, i);
      LastDotOnly(name, i);
      if 0 < i < |name| - 1 then name[i..] else ""
  }
}
