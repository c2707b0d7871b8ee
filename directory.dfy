/** `output_directory_string`: the directory the frames are listed from. */
module Directory {
  import opened Strings

  /** Line 19: every backslash becomes a forward slash. */
  function Normalize(directory: string): string
  {
    ReplaceChar(directory, '\\', '/')
  }

  /** The normalised path, cut back to its last `/` unless it already ends
      in one; a path without any `/` becomes the empty string. */
  function OutputDirectoryString(directory: string): (r: string)
    ensures '\\' !in r
    ensures r == [] || r[|r| - 1] == '/'
    ensures r <= Normalize(directory)
    ensures EndsWith(Normalize(directory), "/") ==> r == Normalize(directory)
    ensures !EndsWith(Normalize(directory), "/") ==> '/' !in Normalize(directory)[|r|..]
  {
    var filepath := Normalize(directory);
    if EndsWith(filepath, "/") then filepath
    else filepath[..RFind(filepath, '/') + 1]
  }

  /** The cut is the longest prefix that is empty or ends in `/`: any such
      prefix of the normalised path is a prefix of the result. */
  lemma OutputDirectoryLongest(directory: string, p: string)
    requires p <= Normalize(directory)
    requires p == [] || p[|p| - 1] == '/'
    ensures p <= OutputDirectoryString(directory)
  {
  }

  /** Normalising an already normalised directory changes nothing. */
  lemma OutputDirectoryIdempotent(directory: string)
    ensures OutputDirectoryString(OutputDirectoryString(directory)) == OutputDirectoryString(directory)
  {
    var r := OutputDirectoryString(directory);
    ReplaceCharAbsent(r, '\\', '/');
    assert Normalize(r) == r;
  }
}
