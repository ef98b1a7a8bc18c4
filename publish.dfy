/** The post `send_post_to_telegram` hands to the messaging provider. */
module Publish {
  import opened Wrappers
  import opened Article

  /** Line 83: the generic picture used when the article has none. */
  const FallbackImage: string := "https://picsum.photos/1280/720"

  /** The provider's caption limit (line 121). */
  const CaptionLimit: nat := 1024

  /** What is sent: a photo with a caption, or a text-only message. */
  datatype Post = Photo(photo: string, caption: string) | Message(text: string)

  /** Line 120: the bold title, a blank line, then the summary. */
  function FullCaption(title: string, summary: string): string {
    "*" + title + "*\n\n" + summary
  }

  /** Line 121: a caption over the limit keeps its first 1020 characters and
      gets "..." appended, which makes 1023 characters. */
  function Caption(title: string, summary: string): (r: string)
    ensures |r| <= CaptionLimit
    ensures |FullCaption(title, summary)| <= CaptionLimit ==> r == FullCaption(title, summary)
    ensures |FullCaption(title, summary)| > CaptionLimit ==>
              |r| == 1023 && r[..1020] == FullCaption(title, summary)[..1020] && r[1020..] == "..."
  {
    var c := FullCaption(title, summary);
    if |c| > CaptionLimit then c[..1020] + "..." else c
  }

  /** Whatever its length, the caption is a prefix of the composed text,
      followed by "..." only when it was cut; the bold title survives intact
      whenever the title has at most 1017 characters. */
  lemma CaptionShape(title: string, summary: string)
    ensures var c, r := FullCaption(title, summary), Caption(title, summary);
      (r == c) || (|r| > 3 && r[..|r| - 3] <= c && r[|r| - 3..] == "...")
    ensures |title| <= 1017 ==> Caption(title, summary)[..|title| + 2] == "*" + title + "*"
  {
    var c, r := FullCaption(title, summary), Caption(title, summary);
    if |c| > CaptionLimit {
      assert r[..|r| - 3] == c[..1020];
    }
    if |title| <= 1017 {
      assert c[..|title| + 2] == "*" + title + "*";
    }
  }

  /** Lines 113-126: no summary means nothing is sent; a missing or empty image
      URL is replaced by the fallback, so the photo branch is always taken and
      the text-only branch on line 126 is never reached. */
  function Compose(title: string, d: Details): (p: Option<Post>)
    ensures p.None? <==> d.summary.None?
    ensures p.Some? ==> p.value.Photo? && p.value.photo != [] && |p.value.caption| <= CaptionLimit
    ensures p.Some? ==> p.value.caption == Caption(title, d.summary.value)
    ensures p.Some? && d.image.Some? && d.image.value != [] ==> p.value.photo == d.image.value
    ensures p.Some? && (d.image.None? || d.image.value == []) ==> p.value.photo == FallbackImage
  {
    match d.summary
    case None => None
    case Some(summary) =>
      var photo := if d.image.None? || d.image.value == [] then FallbackImage else d.image.value;
      var caption := Caption(title, summary);
      if photo != [] then Some(Photo(photo, caption)) else Some(Message(caption))
  }
}
