/** Rendering of chat message text in server.js: `pickThumbUrl`, `runsToHtml`
    (text runs escaped, custom emoji runs turned into `<img>` tags) and the
    fallback part of `textToHtml`. */
module RunsHtml {
  import opened Wrappers
  import opened HtmlEscape

  /** One entry of a `thumbnails` array; `url` is "" when the entry or its url
      is missing. */
  datatype Thumb = Thumb(url: string)

  /** `thumbs[thumbs.length - 1]?.url || thumbs[0]?.url`, as an option: the last
      thumbnail's url, else the first's, else nothing. `None` stands for a
      value that is not an array. */
  function PickThumbUrl(thumbs: Option<seq<Thumb>>): (r: Option<string>)
    ensures r.Some? ==>
      && r.value != ""
      && thumbs.Some? && |thumbs.value| > 0
      && (r.value == thumbs.value[|thumbs.value| - 1].url || r.value == thumbs.value[0].url)
    ensures thumbs.Some? && |thumbs.value| > 0 && thumbs.value[|thumbs.value| - 1].url != "" ==>
      r == Some(thumbs.value[|thumbs.value| - 1].url)
    ensures r.None? <==>
      || thumbs.None?
      || |thumbs.value| == 0
      || (thumbs.value[|thumbs.value| - 1].url == "" && thumbs.value[0].url == "")
  {
    match thumbs
    case None => None
    case Some(ts) =>
      if |ts| == 0 then None
      else if ts[|ts| - 1].url != "" then Some(ts[|ts| - 1].url)
      else if ts[0].url != "" then Some(ts[0].url)
      else None
  }

  /** The `emoji` object of a run. */
  datatype EmojiInfo = EmojiInfo(
    /** `image.thumbnails` */
    imageThumbs: Option<seq<Thumb>>,
    /** `thumbnails` */
    thumbs: Option<seq<Thumb>>,
    /** `shortcuts`, empty when missing */
    shortcuts: seq<string>,
    /** `label`, "" when missing */
    labelText: string)

  /** One element of a `runs` array: `text` when it is not null, `emoji` when it
      is truthy. */
  datatype Run = Run(text: Option<string>, emoji: Option<EmojiInfo>)

  /** The image of an emoji: the last-else-first url of `image.thumbnails`, or of
      `thumbnails` when the former is missing, or "" for none. */
  function EmojiSrc(em: EmojiInfo): string {
    PickThumbUrl(FirstSome([em.imageThumbs, em.thumbs])).GetOr("")
  }

  /** `em.shortcuts?.[0] || em.labelText || "emoji"`. */
  function AltText(em: EmojiInfo): (alt: string)
    ensures alt != ""
    ensures |em.shortcuts| > 0 && em.shortcuts[0] != "" ==> alt == em.shortcuts[0]
    ensures alt == em.labelText || alt == "emoji" || (|em.shortcuts| > 0 && alt == em.shortcuts[0])
    ensures alt == "emoji" <==>
      (|em.shortcuts| == 0 || em.shortcuts[0] == "" || em.shortcuts[0] == "emoji")
      && (em.labelText == "" || em.labelText == "emoji" || (|em.shortcuts| > 0 && em.shortcuts[0] != ""))
  {
    if |em.shortcuts| > 0 && em.shortcuts[0] != "" then em.shortcuts[0]
    else if em.labelText != "" then em.labelText
    else "emoji"
  }

  /** The tag an emoji with an image becomes; both attribute values are escaped. */
  function ImgTag(src: string, alt: string): string {
    "<img class=\"yt-emoji emoji\" src=\"" + Escape(src) + "\" data-src=\"" + Escape(src)
      + "\" alt=\"" + Escape(alt) + "\" />"
  }

  /** An emoji run that renders as an image. */
  predicate IsImageRun(r: Run) {
    r.text.None? && r.emoji.Some? && EmojiSrc(r.emoji.value) != ""
  }

  /** The HTML of one run. */
  function RunHtml(r: Run): (h: string)
    ensures r.text.Some? ==> h == Escape(r.text.value)
    ensures IsImageRun(r) ==> h == ImgTag(EmojiSrc(r.emoji.value), AltText(r.emoji.value))
    ensures r.text.None? && r.emoji.Some? && !IsImageRun(r) ==> h == Escape(AltText(r.emoji.value))
    ensures r.text.None? && r.emoji.None? ==> h == ""
    ensures !IsImageRun(r) ==> NoMarkup(h)
  {
    if r.text.Some? then Escape(r.text.value)
    else if r.emoji.Some? then
      var em := r.emoji.value;
      var src := EmojiSrc(em);
      if src != "" then ImgTag(src, AltText(em)) else Escape(AltText(em))
    else ""
  }

  /** `runsToHtml(runs)`: the runs' HTML, concatenated in order. */
  function RunsToHtml(runs: seq<Run>): (h: string)
    ensures (forall i :: 0 <= i < |runs| ==> !IsImageRun(runs[i])) ==> NoMarkup(h)
  {
    if |runs| == 0 then ""
    else
      var rest := RunsToHtml(runs[1..]);
      assert forall i :: 1 <= i < |runs| ==> runs[i] == runs[1..][i - 1];
      var here := RunHtml(runs[0]);
      if NoMarkup(here) && NoMarkup(rest) then
        NoMarkupAppend(here, rest);
        here + rest
      else
        here + rest
  }

  lemma {:induction false} RunsToHtmlAppend(a: seq<Run>, b: seq<Run>)
    ensures RunsToHtml(a + b) == RunsToHtml(a) + RunsToHtml(b)
  {
    if |a| == 0 {
      assert a + b == b;
    } else {
      assert (a + b)[1..] == a[1..] + b;
      RunsToHtmlAppend(a[1..], b);
    }
  }

  /** The text a reader sees in a message without images: each text run, and
      the alt text of each emoji run. */
  function PlainText(runs: seq<Run>): string {
    if |runs| == 0 then ""
    else
      var r := runs[0];
      var here := if r.text.Some? then r.text.value else if r.emoji.Some? then AltText(r.emoji.value) else "";
      here + PlainText(runs[1..])
  }

  /** Without image runs the HTML holds no markup at all, and decoding its
      entities gives back exactly the text and alt texts of the runs, in order. */
  lemma {:induction false} RunsWithoutImages(runs: seq<Run>)
    requires forall i :: 0 <= i < |runs| ==> !IsImageRun(runs[i])
    ensures NoMarkup(RunsToHtml(runs))
    ensures Unescape(RunsToHtml(runs)) == PlainText(runs)
  {
    if |runs| > 0 {
      var r := runs[0];
      RunsWithoutImages(runs[1..]);
      var here := if r.text.Some? then r.text.value else if r.emoji.Some? then AltText(r.emoji.value) else "";
      assert RunHtml(r) == Escape(here);
      NoMarkupAppend(RunHtml(r), RunsToHtml(runs[1..]));
      UnescapeEscapePrefix(here, RunsToHtml(runs[1..]));
    }
  }

  /** A message text as the chat library hands it over. */
  datatype TextValue =
    | Str(s: string)
    /** an array of runs */
    | RunArray(elems: seq<Run>)
    /** an object with `runs`, `text.runs` and the string its `toString` gives */
    | Obj(ownRuns: Option<seq<Run>>, textRuns: Option<seq<Run>>, shown: string)

  /** The runs `textToHtml` renders, when it finds a non-empty array of them. */
  function TextRuns(obj: TextValue): Option<seq<Run>> {
    match obj
    case Str(_) => None
    case RunArray(rs) => if |rs| > 0 then Some(rs) else None
    case Obj(rs, trs, _) =>
      var found := FirstSome([rs, trs]);
      if found.Some? && |found.value| > 0 then found else None
  }

  /** `textToHtml(obj)` for values without a usable `toHTML`: the runs when
      there are any, else the escaped string form, else "". */
  function TextToHtml(obj: Option<TextValue>): (h: string)
    ensures obj.Some? && TextRuns(obj.value).Some? ==> h == RunsToHtml(TextRuns(obj.value).value)
    ensures obj.None? ==> h == ""
    ensures obj.Some? && obj.value.Str? ==> h == Escape(obj.value.s)
    ensures obj.Some? && obj.value.Obj? && TextRuns(obj.value).None? ==> h == Escape(obj.value.shown)
  {
    match obj
    case None => ""
    case Some(v) =>
      match TextRuns(v)
      case Some(rs) => RunsToHtml(rs)
      case None =>
        match v
        case Str(s) => Escape(s)
        case RunArray(_) => ""
        case Obj(_, _, shown) => Escape(shown)
  }

  /** The text a reader sees in a message without images: the runs' text when
      there are runs, else the string form, else nothing. */
  function ShownText(obj: Option<TextValue>): string {
    match obj
    case None => ""
    case Some(v) =>
      match TextRuns(v)
      case Some(rs) => PlainText(rs)
      case None =>
        match v
        case Str(s) => s
        case RunArray(_) => ""
        case Obj(_, _, shown) => shown
  }

  /** A message rendered without a single image run carries no markup, and
      decoding its entities gives back the text a reader sees. */
  lemma TextWithoutImages(obj: Option<TextValue>)
    requires obj.Some? && TextRuns(obj.value).Some? ==>
      forall i :: 0 <= i < |TextRuns(obj.value).value| ==> !IsImageRun(TextRuns(obj.value).value[i])
    ensures NoMarkup(TextToHtml(obj))
    ensures Unescape(TextToHtml(obj)) == ShownText(obj)
  {
    if obj.Some? && TextRuns(obj.value).Some? {
      RunsWithoutImages(TextRuns(obj.value).value);
    } else if obj.Some? && obj.value.Str? {
      UnescapeEscape(obj.value.s);
    } else if obj.Some? && obj.value.Obj? {
      UnescapeEscape(obj.value.shown);
    }
  }
}
