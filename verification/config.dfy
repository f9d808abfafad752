/** The recipients setting of the e-mail configuration: a comma-separated
    list, each entry stripped of surrounding whitespace. Reading the
    environment is left out; the setting's text is the input. */
module Config {
  import Text

  function StripAll(parts: seq<string>): (r: seq<string>)
    ensures |r| == |parts|
    ensures forall i :: 0 <= i < |parts| ==> r[i] == Text.Strip(parts[i])
  {
    seq(|parts|, i requires 0 <= i < |parts| => Text.Strip(parts[i]))
  }

  /** `[r.strip() for r in recipients.split(',')] if recipients else []`:
      no entry for an empty setting, otherwise one per comma-separated
      segment, in order and empty segments included: entry i is segment i
      with its surrounding whitespace stripped, so no entry holds a comma or
      starts or ends with whitespace. */
  function ParseRecipients(s: string): (r: seq<string>)
    ensures s == "" <==> r == []
    ensures s != "" ==> |r| == Text.CountChar(s, ',') + 1
    ensures s != "" ==> |r| == |Text.Split(s, ',')|
    ensures s != "" ==> forall i :: 0 <= i < |r| ==> r[i] == Text.Strip(Text.Split(s, ',')[i])
    ensures forall i :: 0 <= i < |r| ==> ',' !in r[i]
    ensures forall i :: 0 <= i < |r| ==> r[i] == [] || (!Text.IsSpace(r[i][0]) && !Text.IsSpace(r[i][|r[i]| - 1]))
  {
    if s == "" then []
    else
      var parts := Text.Split(s, ',');
      StripAllNoComma(parts);
      StripAll(parts)
  }

  lemma StripAllNoComma(parts: seq<string>)
    requires forall i :: 0 <= i < |parts| ==> ',' !in parts[i]
    ensures forall i :: 0 <= i < |parts| ==> ',' !in StripAll(parts)[i]
  {
    forall i | 0 <= i < |parts|
      ensures ',' !in StripAll(parts)[i]
    {
      var a, b :| 0 <= a <= b <= |parts[i]| && Text.Strip(parts[i]) == parts[i][a..b]
        && Text.AllSpace(parts[i][..a]) && Text.AllSpace(parts[i][b..]);
      assert forall c :: c in parts[i][a..b] ==> c in parts[i];
    }
  }

  /** A string with no whitespace at either end strips to itself. */
  lemma StripTrimmed(s: string)
    requires s == [] || (!Text.IsSpace(s[0]) && !Text.IsSpace(s[|s| - 1]))
    ensures Text.Strip(s) == s
  {
    if s != [] {
      assert Text.LeadLen(s) == 0;
      assert s[0..] == s;
      assert Text.TrailLen(s) == 0;
    }
  }

  /** When no segment has surrounding whitespace, joining the entries with
      commas gives back the setting. */
  lemma JoinRecipients(s: string)
    requires s != ""
    requires forall i :: 0 <= i < |Text.Split(s, ',')| ==>
      var p := Text.Split(s, ',')[i]; p == [] || (!Text.IsSpace(p[0]) && !Text.IsSpace(p[|p| - 1]))
    ensures Text.Join(",", ParseRecipients(s)) == s
  {
    var parts := Text.Split(s, ',');
    forall i | 0 <= i < |parts|
      ensures StripAll(parts)[i] == parts[i]
    {
      StripTrimmed(parts[i]);
    }
    assert StripAll(parts) == parts;
    Text.JoinSplit(s, ',');
  }


  /** Without a comma the setting is one segment. */
  lemma {:induction false} SplitWithoutSep(s: string)
    requires ',' !in s
    ensures Text.Split(s, ',') == [s]
  {
    if s != [] {
      SplitWithoutSep(s[1..]);
      assert [s[0]] + s[1..] == s;
    }
  }

  /** Empty segments are kept rather than dropped: a non-empty setting of
      whitespace only gives one empty entry. */
  lemma BlankSetting(s: string)
    requires s != "" && Text.AllSpace(s)
    ensures ParseRecipients(s) == [""]
  {
    SplitWithoutSep(s);
  }
}
