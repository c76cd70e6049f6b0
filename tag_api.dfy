/** The allowed-tags endpoint (api/tags.kt): the tag list read from a file, reloaded at most
    every thirty minutes. Module creation and update check tags against this list. */
module TagApi {
  import opened Wrappers
  import opened Text

  /** `TAGS_CHECK_TIMEOUT`: thirty minutes, in milliseconds. */
  const TAGS_CHECK_TIMEOUT: int := 1000 * 60 * 30

  /** `map { it.trim() }`. */
  function TrimAll(lines: seq<string>): (r: seq<string>)
    ensures |r| == |lines| && forall i :: 0 <= i < |lines| ==> r[i] == Trim(lines[i])
  {
    seq(|lines|, i requires 0 <= i < |lines| => Trim(lines[i]))
  }

  /** `readText().split("\n").map { it.trim() }`: every line trimmed; a blank line is kept, as
      an empty tag. */
  function ParseTags(text: string): (r: seq<string>)
    ensures |r| == |Split(text, '\n')| >= 1
  {
    TrimAll(Split(text, '\n'))
  }

  /** A file of lines gives exactly one tag per line: that line, trimmed. */
  lemma TagsOfLines(lines: seq<string>)
    requires |lines| >= 1 && forall i :: 0 <= i < |lines| ==> '\n' !in lines[i]
    ensures ParseTags(Join(lines, "\n")) == TrimAll(lines)
  {
    SplitJoin(lines, '\n');
  }

  /** Blank lines are not dropped: a file ending in a line break allows the empty tag. */
  lemma TrailingNewlineAllowsEmptyTag(text: string)
    ensures ParseTags(text + "\n") == ParseTags(text) + [""]
    ensures "" in ParseTags(text + "\n")
  {
    SplitTrailingSep(text, '\n');
    var parts := Split(text, '\n');
    assert Split(text + "\n", '\n') == parts + [""];
    var r := ParseTags(text + "\n");
    assert r[|parts|] == Trim("") == "";
    assert r == ParseTags(text) + [""];
  }

  /** `allowedTags` and `lastTagsCheckTime`. */
  class TagCache {
    var allowedTags: seq<string>
    var lastTagsCheckTime: int

    /** Start-up: the file is read once. */
    constructor(text: string, now: int)
      ensures allowedTags == ParseTags(text) && lastTagsCheckTime == now
    {
      allowedTags := ParseTags(text);
      lastTagsCheckTime := now;
    }

    /** `getTags`, given the file's text and the two clock reads: reload only when more than
        the timeout has passed since the last reload, then answer with the cached list. */
    method GetTags(text: string, now: int, reloadedAt: int) returns (tags: seq<string>)
      modifies this
      ensures now - old(lastTagsCheckTime) > TAGS_CHECK_TIMEOUT ==>
        allowedTags == ParseTags(text) && lastTagsCheckTime == reloadedAt
      ensures now - old(lastTagsCheckTime) <= TAGS_CHECK_TIMEOUT ==>
        allowedTags == old(allowedTags) && lastTagsCheckTime == old(lastTagsCheckTime)
      ensures tags == allowedTags
    {
      if now - lastTagsCheckTime > TAGS_CHECK_TIMEOUT {
        allowedTags := ParseTags(text);
        lastTagsCheckTime := reloadedAt;
      }
      tags := allowedTags;
    }
  }
}
