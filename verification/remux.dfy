/**
  The rebuild step of `process_single_video`: the file names it derives from the
  video path and the stream map it hands to the remux.
 */
module Remux {
  import opened Text
  import opened Analysis

  const BackupMarker := "_backup"
  const TempOutputMarker := "_temp_output"

  /** The language tag written on the one subtitle stream of the output. */
  const SubtitleLanguage := "chi"

  /** `f"{base}{marker}{ext}"` with `base, ext = os.path.splitext(video)`. */
  function Decorate(video: string, marker: string): (r: string)
    ensures |r| == |video| + |marker|
  {
    var parts := SplitExt(video);
    parts.0 + marker + parts.1
  }

  function BackupPath(video: string): string {
    Decorate(video, BackupMarker)
  }

  function TempOutputPath(video: string): string {
    Decorate(video, TempOutputMarker)
  }

  function SuffixedPath(video: string, suffix: string): string {
    Decorate(video, suffix)
  }

  /** Decorating keeps the name's stem and extension: the marker is inserted just before
      the extension, so removing it gives back the original path. */
  lemma DecorateKeepsStemAndExtension(video: string, marker: string)
    ensures var parts := SplitExt(video);
      && Decorate(video, marker)[..|parts.0|] == parts.0
      && Decorate(video, marker)[|parts.0| + |marker|..] == parts.1
      && parts.0 + parts.1 == video
  {
  }

  /** The derived names never coincide with the video or with each other, and the
      suffixed name is the video itself exactly when the suffix is empty. */
  lemma DerivedNamesDistinct(video: string, suffix: string)
    ensures BackupPath(video) != video
    ensures TempOutputPath(video) != video
    ensures BackupPath(video) != TempOutputPath(video)
    ensures SuffixedPath(video, suffix) == video <==> suffix == ""
  {
    var parts := SplitExt(video);
    if suffix == "" {
      assert parts.0 + suffix + parts.1 == video;
    }
  }

  /** Where the remux writes (`temp_output_file`) and which path holds the result
      afterwards (`new_video_file`). */
  datatype Placement = Placement(remuxInto: string, target: string)

  function PlanOutput(video: string, replaceOriginal: bool, suffix: string): (p: Placement)
    ensures replaceOriginal ==> p.target == video && p.remuxInto != video
    ensures !replaceOriginal ==> p.remuxInto == p.target
    ensures p.remuxInto == video <==> !replaceOriginal && suffix == ""
  {
    DerivedNamesDistinct(video, suffix);
    if replaceOriginal then Placement(TempOutputPath(video), video)
    else Placement(SuffixedPath(video, suffix), SuffixedPath(video, suffix))
  }

  /** One `-map` argument: a stream of the video by its index in the probe (`0:i`),
      or the converted subtitle file (`1:s`). */
  datatype MapArg = Original(index: nat) | ConvertedSubtitle

  predicate IsVideoOrAudio(s: Stream) {
    s.codecType == Some("video") || s.codecType == Some("audio")
  }

  /** The `0:i` maps, from index `from` on: one per video or audio stream, in probe order. */
  function StreamMaps(all: seq<Stream>, from: nat): (m: seq<MapArg>)
    requires from <= |all|
    decreases |all| - from
    ensures forall k | 0 <= k < |m| ::
      m[k].Original? && from <= m[k].index < |all| && IsVideoOrAudio(all[m[k].index])
    ensures forall i | from <= i < |all| :: IsVideoOrAudio(all[i]) ==> Original(i) in m
    ensures forall k, l | 0 <= k < l < |m| :: m[k].index < m[l].index
  {
    if from == |all| then []
    else (if IsVideoOrAudio(all[from]) then [Original(from)] else []) + StreamMaps(all, from + 1)
  }

  /** The `-map` list: every video and audio stream of the second probe, by its index
      among all streams, then the converted subtitle, once and last. No original
      subtitle stream is mapped. */
  function RemuxMaps(all: seq<Stream>): (m: seq<MapArg>)
    ensures |m| >= 1 && m[|m| - 1] == ConvertedSubtitle
    ensures forall k | 0 <= k < |m| - 1 :: m[k].Original? && m[k].index < |all|
    ensures forall k | 0 <= k < |m| - 1 :: IsVideoOrAudio(all[m[k].index]) && !IsSubtitle(all[m[k].index])
    ensures forall i | 0 <= i < |all| :: IsVideoOrAudio(all[i]) <==> Original(i) in m
    ensures forall k, l | 0 <= k < l < |m| - 1 :: m[k].index < m[l].index
  {
    var front := StreamMaps(all, 0);
    assert forall i | 0 <= i < |all| :: Original(i) in front + [ConvertedSubtitle] ==> Original(i) in front;
    front + [ConvertedSubtitle]
  }
}
