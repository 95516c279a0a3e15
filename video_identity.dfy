/** The video-identity helpers of annotations.cc: the YouTube watch URL of a
    video ID, and the video ID encoded in an annotation file's name. A path is
    modelled by its final component, the file name, with the std::filesystem
    rules for its stem and extension. */
module VideoIdentity {
  import opened Wrappers

  /** youtube_video_id_length: every YouTube video ID has eleven characters. */
  const YoutubeVideoIdLength: nat := 11

  /** The watch-page prefix that full_youtube_url_from_id puts before the ID. */
  const YoutubeWatchBase: string := "https://www.youtube.com/watch?v="

  /** full_youtube_url_from_id: the watch URL, for IDs of the right length only. */
  function FullYoutubeUrlFromId(videoId: string): (r: Option<string>)
    ensures r.Some? <==> |videoId| == YoutubeVideoIdLength
    ensures r.Some? ==> |r.value| == |YoutubeWatchBase| + YoutubeVideoIdLength
    ensures r.Some? ==> r.value[..|YoutubeWatchBase|] == YoutubeWatchBase && r.value[|YoutubeWatchBase|..] == videoId
  {
    if |videoId| != YoutubeVideoIdLength then None else Some(YoutubeWatchBase + videoId)
  }

  /** std::string::find_last_of for one character: the index of its last occurrence. */
  function LastIndexOf(s: string, c: char): (r: Option<nat>)
    ensures r.Some? ==> r.value < |s| && s[r.value] == c && forall k :: r.value < k < |s| ==> s[k] != c
    ensures r.None? ==> forall k :: 0 <= k < |s| ==> s[k] != c
  {
    if s == [] then None
    else if s[|s| - 1] == c then Some(|s| - 1)
    else LastIndexOf(s[..|s| - 1], c)
  }

  /** The last occurrence is the only index holding `c` with none after it. */
  lemma {:induction false} LastIndexOfIs(s: string, c: char, i: nat)
    requires i < |s| && s[i] == c
    requires forall k :: i < k < |s| ==> s[k] != c
    ensures LastIndexOf(s, c) == Some(i)
    decreases |s|
  {
    if i < |s| - 1 {
      LastIndexOfIs(s[..|s| - 1], c, i);
    }
  }

  /** Where path::extension starts: at the last '.', unless that dot is the
      first character, or the file name is "." or "..". */
  function ExtensionDot(filename: string): (r: Option<nat>)
    ensures r.Some? ==> 0 < r.value < |filename| && filename[r.value] == '.'
    ensures r.Some? ==> forall k :: r.value < k < |filename| ==> filename[k] != '.'
    ensures r.None? <==> (|| filename == "." || filename == ".."
                          || forall k :: 0 < k < |filename| ==> filename[k] != '.')
  {
    if filename == "." || filename == ".." then None
    else
      match LastIndexOf(filename, '.')
      case None => None
      case Some(i) => if i == 0 then None else Some(i)
  }

  /** path::stem of a file name. */
  function Stem(filename: string): (stem: string)
    ensures |stem| <= |filename| && stem == filename[..|stem|]
    ensures ExtensionDot(filename).None? <==> stem == filename
  {
    match ExtensionDot(filename)
    case None => filename
    case Some(i) => filename[..i]
  }

  /** path::extension of a file name: empty, or a '.' and the text after the last '.'. */
  function Extension(filename: string): (extension: string)
    ensures |extension| <= |filename| && extension == filename[|filename| - |extension|..]
    ensures extension == [] <==> ExtensionDot(filename).None?
  {
    match ExtensionDot(filename)
    case None => ""
    case Some(i) => filename[i..]
  }

  /** Stem and extension split the file name: together they give it back, and
      a non-empty extension is one dot followed by dot-free text. */
  lemma StemAndExtension(filename: string)
    ensures Stem(filename) + Extension(filename) == filename
    ensures Extension(filename) != [] ==>
              Extension(filename)[0] == '.' && forall k :: 0 < k < |Extension(filename)| ==> Extension(filename)[k] != '.'
  {
    match ExtensionDot(filename)
    case None =>
      assert filename + [] == filename;
    case Some(i) =>
      assert filename[..i] + filename[i..] == filename;
  }

  /** path_to_youtube_video_id: the stem must be non-empty, the extension must
      equal the expected one, and the stem must end with a space followed by
      eleven characters; those eleven characters are the ID. */
  function PathToYoutubeVideoId(filename: string, expectedExtension: string): (r: Option<string>)
    ensures r.Some? <==> (&& Stem(filename) != []
                          && Extension(filename) == expectedExtension
                          && |Stem(filename)| > YoutubeVideoIdLength
                          && LastIndexOf(Stem(filename), ' ') == Some(|Stem(filename)| - YoutubeVideoIdLength - 1))
    ensures r.Some? ==> |r.value| == YoutubeVideoIdLength
    ensures r.Some? ==> r.value == Stem(filename)[|Stem(filename)| - YoutubeVideoIdLength..]
    ensures r.Some? ==> forall k :: 0 <= k < |r.value| ==> r.value[k] != ' '
  {
    var stem := Stem(filename);
    if stem == [] then None
    else if Extension(filename) != expectedExtension then None
    else if |stem| <= YoutubeVideoIdLength then None
    else
      match LastIndexOf(stem, ' ')
      case None => None
      case Some(foundIndex) =>
        if foundIndex + YoutubeVideoIdLength + 1 != |stem| then None
        else Some(stem[foundIndex + 1..])
  }

  /** Naming: a prefix, a space, an eleven-character ID without spaces or dots,
      and an extension ("." and dot-free text) give back exactly that ID. */
  lemma IdOfComposedName(prefix: string, id: string, extension: string)
    requires |id| == YoutubeVideoIdLength
    requires forall k :: 0 <= k < |id| ==> id[k] != ' ' && id[k] != '.'
    requires |extension| > 0 && extension[0] == '.'
    requires forall k :: 0 < k < |extension| ==> extension[k] != '.'
    ensures PathToYoutubeVideoId(prefix + [' '] + id + extension, extension) == Some(id)
  {
    var stem := prefix + [' '] + id;
    var filename := stem + extension;
    assert filename[|stem|] == '.';
    LastIndexOfIs(filename, '.', |stem|);
    assert ExtensionDot(filename) == Some(|stem|);
    assert filename[..|stem|] == stem;
    assert filename[|stem|..] == extension;
    assert stem[|prefix|] == ' ';
    LastIndexOfIs(stem, ' ', |prefix|);
    assert stem[|prefix| + 1..] == id;
  }

  /** Decomposition: an extracted ID is the tail of the file name, after the
      rest of the stem and a space, and before the expected extension. */
  lemma ComposedNameOfId(filename: string, expectedExtension: string)
    requires PathToYoutubeVideoId(filename, expectedExtension).Some?
    ensures var id := PathToYoutubeVideoId(filename, expectedExtension).value;
            var stem := Stem(filename);
            filename == stem[..|stem| - YoutubeVideoIdLength - 1] + [' '] + id + expectedExtension
  {
    var stem := Stem(filename);
    var id := PathToYoutubeVideoId(filename, expectedExtension).value;
    var cut := |stem| - YoutubeVideoIdLength - 1;
    assert stem == stem[..cut] + [' '] + id;
    StemAndExtension(filename);
  }

  /** Every ID read from a file name is one the URL builder accepts, and its
      URL has 43 characters. */
  lemma ExtractedIdHasUrl(filename: string, expectedExtension: string)
    requires PathToYoutubeVideoId(filename, expectedExtension).Some?
    ensures FullYoutubeUrlFromId(PathToYoutubeVideoId(filename, expectedExtension).value).Some?
    ensures |FullYoutubeUrlFromId(PathToYoutubeVideoId(filename, expectedExtension).value).value| == 43
  {
  }

  /** An eleven-character ID made of letters and digits qualifies for naming. */
  predicate PlainId(id: string)
  {
    && |id| == YoutubeVideoIdLength
    && forall k :: 0 <= k < |id| ==> id[k] != ' ' && id[k] != '.'
  }

  /** "TA01 yVebIlvkOnU.xml" names video yVebIlvkOnU. */
  lemma FirstEpisodeId()
    ensures PathToYoutubeVideoId("TA01 yVebIlvkOnU.xml", ".xml") == Some("yVebIlvkOnU")
  {
    assert PlainId("yVebIlvkOnU");
    assert "TA01" + [' '] + "yVebIlvkOnU" + ".xml" == "TA01 yVebIlvkOnU.xml" by {
      FirstEpisodeLayout();
    }
    IdOfComposedName("TA01", "yVebIlvkOnU", ".xml");
  }

  lemma FirstEpisodeLayout()
    ensures "TA01" + [' '] + "yVebIlvkOnU" + ".xml" == "TA01 yVebIlvkOnU.xml"
  {
  }

  /** A stem with spaces before the last one still yields the last eleven characters. */
  lemma LongNameId()
    ensures PathToYoutubeVideoId("TUBE-ADVENTURES (aventura interactiva) BckqqsJiDUI.xml", ".xml") == Some("BckqqsJiDUI")
  {
    assert PlainId("BckqqsJiDUI");
    assert "TUBE-ADVENTURES (aventura interactiva)" + [' '] + "BckqqsJiDUI" + ".xml"
        == "TUBE-ADVENTURES (aventura interactiva) BckqqsJiDUI.xml" by {
      LongNameLayout();
    }
    IdOfComposedName("TUBE-ADVENTURES (aventura interactiva)", "BckqqsJiDUI", ".xml");
  }

  lemma LongNameLayout()
    ensures "TUBE-ADVENTURES (aventura interactiva)" + [' '] + "BckqqsJiDUI" + ".xml"
         == "TUBE-ADVENTURES (aventura interactiva) BckqqsJiDUI.xml"
  {
  }

  /** A file name whose stem is too short for a space and an ID gives nothing,
      and so does a different extension. */
  lemma RejectedNames()
    ensures PathToYoutubeVideoId("short.xml", ".xml") == None
    ensures PathToYoutubeVideoId("TA01 yVebIlvkOnU.txt", ".xml") == None
  {
    assert "short.xml"[5] == '.';
    LastIndexOfIs("short.xml", '.', 5);
    assert "TA01 yVebIlvkOnU.txt"[16] == '.';
    LastIndexOfIs("TA01 yVebIlvkOnU.txt", '.', 16);
    assert "TA01 yVebIlvkOnU.txt"[16..] == ".txt";
  }
}
