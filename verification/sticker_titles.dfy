/** String transforms on sticker titles (src/lib/stickers/index.ts): the
    image-file lookup and the heading anchor id. */
module StickerTitles {

  const SingleQuote: char := '\''
  const DoubleQuote: char := '"'
  const Space: char := ' '

  /** The directory and extension every sticker image path is built from. */
  const ImageDirectory: string := "/src/lib/images/stickers/"
  const ImageExtension: string := ".jpg"

  /** `title.replaceAll("'", "")`: every single quote removed. */
  function RemoveSingleQuotes(title: string): (r: string)
    ensures SingleQuote !in r
    ensures |r| <= |title|
    ensures forall c :: c != SingleQuote ==> multiset(r)[c] == multiset(title)[c]
    ensures SingleQuote !in title ==> r == title
  {
    if |title| == 0 then
      ""
    else
      assert title == [title[0]] + title[1..];
      (if title[0] == SingleQuote then "" else [title[0]]) + RemoveSingleQuotes(title[1..])
  }

  /** Removing quotes works piece by piece, so the characters that remain
      keep their order. */
  lemma {:induction false} RemoveSingleQuotesAppend(a: string, b: string)
    ensures RemoveSingleQuotes(a + b) == RemoveSingleQuotes(a) + RemoveSingleQuotes(b)
  {
    if |a| == 0 {
      assert a + b == b;
    } else {
      assert (a + b)[1..] == a[1..] + b;
      RemoveSingleQuotesAppend(a[1..], b);
    }
  }

  /** Removing quotes twice is removing them once. */
  lemma RemoveSingleQuotesIdempotent(title: string)
    ensures RemoveSingleQuotes(RemoveSingleQuotes(title)) == RemoveSingleQuotes(title)
  {
  }

  /** The module path the image of `title` is looked up under. */
  function ImageKey(title: string): (key: string)
    ensures |key| == |ImageDirectory| + |RemoveSingleQuotes(title)| + |ImageExtension|
    ensures key[..|ImageDirectory|] == ImageDirectory
    ensures key[|ImageDirectory|..|key| - |ImageExtension|] == RemoveSingleQuotes(title)
    ensures key[|key| - |ImageExtension|..] == ImageExtension
    ensures SingleQuote !in key
  {
    ImageDirectory + RemoveSingleQuotes(title) + ImageExtension
  }

  /** Two titles share an image path exactly when they agree once their single
      quotes are removed. */
  lemma ImageKeyInjective(a: string, b: string)
    ensures ImageKey(a) == ImageKey(b) <==> RemoveSingleQuotes(a) == RemoveSingleQuotes(b)
  {
    if ImageKey(a) == ImageKey(b) {
      var ka := ImageKey(a);
      var n := |ImageDirectory|;
      assert RemoveSingleQuotes(a) == ka[n..|ka| - |ImageExtension|];
      assert RemoveSingleQuotes(b) == ka[n..|ka| - |ImageExtension|];
    }
  }

  /** `getStickerImageUrl`: the URL the bundler resolved for the title's image,
      or "" when there is none. `imageUrls` is the eagerly globbed map from
      module path to URL. */
  function GetStickerImageUrl(imageUrls: map<string, string>, title: string): (url: string)
    ensures url != "" ==> url in imageUrls.Values
    ensures ImageKey(title) in imageUrls ==> url == imageUrls[ImageKey(title)]
    ensures ImageKey(title) !in imageUrls ==> url == ""
  {
    var key := ImageKey(title);
    if key in imageUrls then imageUrls[key] else ""
  }

  /** Single quotes anywhere in a title make no difference to its image URL. */
  lemma {:induction false} ImageUrlIgnoresSingleQuotes(imageUrls: map<string, string>, before: string, after: string)
    ensures GetStickerImageUrl(imageUrls, before + [SingleQuote] + after) == GetStickerImageUrl(imageUrls, before + after)
  {
    var quoted := before + [SingleQuote];
    RemoveSingleQuotesAppend(quoted, after);
    RemoveSingleQuotesAppend(before, [SingleQuote]);
    assert RemoveSingleQuotes([SingleQuote]) == "";
    assert RemoveSingleQuotes(quoted) == RemoveSingleQuotes(before);
    RemoveSingleQuotesAppend(before, after);
    assert RemoveSingleQuotes(quoted + after) == RemoveSingleQuotes(before + after);
  }

  /** The characters the heading id replaces: space, single and double quote
      (the regular expression `[ '"]`). */
  predicate IsReplacedInHeading(c: char) {
    c == Space || c == SingleQuote || c == DoubleQuote
  }

  /** `getStickerHeadingId`: the title with each space and quote turned into `_`. */
  function GetStickerHeadingId(title: string): (id: string)
    ensures |id| == |title|
    ensures forall i :: 0 <= i < |title| ==>
      id[i] == (if IsReplacedInHeading(title[i]) then '_' else title[i])
  {
    if |title| == 0 then
      ""
    else
      [if IsReplacedInHeading(title[0]) then '_' else title[0]] + GetStickerHeadingId(title[1..])
  }

  /** A heading id holds no space or quote, and is its own heading id. */
  lemma HeadingIdIdempotent(title: string)
    ensures forall i :: 0 <= i < |title| ==> !IsReplacedInHeading(GetStickerHeadingId(title)[i])
    ensures GetStickerHeadingId(GetStickerHeadingId(title)) == GetStickerHeadingId(title)
  {
  }
}
