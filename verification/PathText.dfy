/** Paths as text: the parts between the slashes. */
module PathText {

  function Split(path: string): (parts: seq<string>)
    ensures |parts| >= 1
  {
    if path == "" then [""]
    else
      var rest := Split(path[1..]);
      if path[0] == '/' then [""] + rest else [[path[0]] + rest[0]] + rest[1..]
  }

  lemma {:induction false} SplitWhole(path: string)
    requires '/' !in path
    ensures Split(path) == [path]
  {
    if path != "" {
      SplitWhole(path[1..]);
      assert [path[0]] + path[1..] == path;
    }
  }
}
