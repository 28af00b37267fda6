/**
 * The message-type heuristic shared by the transcript splitter
 * (processing/split.py:21-25) and the sticker audit (processing/fix_stk.py:7-11):
 * a sticker file name gives type 4, a media placeholder at the end gives 5,
 * anything else no type.
 */
module Heuristic {
  import opened Common
  import opened Strings

  const StickerType := 4
  const MediaType := 5

  const StickerTag := "STK"
  const StickerExtension := ".webp"
  /**
   * The hidden-media placeholder as the scripts spell it: "<Mídia oculta>" as
   * UTF-8 bytes read back as Latin-1, so "í" became U+00C3 U+00AD.
   */
  const HiddenMedia := "<M\U{00C3}\U{00AD}dia oculta>"
  const AttachedFile := "(arquivo anexado)"

  predicate IsSticker(content: string) {
    Contains(content, StickerTag) && Contains(content, StickerExtension)
  }

  predicate IsMedia(content: string) {
    EndsWith(content, HiddenMedia) || EndsWith(content, AttachedFile)
  }

  /**
   * The type the scripts assign to a message text: 4 exactly for stickers;
   * 5 exactly for media that are not stickers, so the sticker rule wins; no
   * type otherwise.
   */
  function Classify(content: string): (r: Option<int>)
    ensures r.None? || r == Some(StickerType) || r == Some(MediaType)
    ensures r == Some(StickerType) <==> IsSticker(content)
    ensures r == Some(MediaType) <==> !IsSticker(content) && IsMedia(content)
    ensures r.None? <==> !IsSticker(content) && !IsMedia(content)
  {
    if IsSticker(content) then Some(StickerType)
    else if IsMedia(content) then Some(MediaType)
    else None
  }

  /**
   * The sticker rule is checked first: a sticker name followed by the
   * attachment marker is a media line too, yet it gets the sticker type.
   */
  lemma StickerBeforeMedia(name: string, gap: string)
    requires IsSticker(name)
    ensures IsMedia(name + gap + AttachedFile)
    ensures Classify(name + gap + AttachedFile) == Some(StickerType)
  {
    ContainsInConcat(name, gap + AttachedFile, StickerTag);
    ContainsInConcat(name, gap + AttachedFile, StickerExtension);
    assert name + gap + AttachedFile == name + (gap + AttachedFile);
    EndsWithConcat(name + gap, AttachedFile);
  }

  /** Anything written around a sticker file name leaves it a sticker. */
  lemma StickerInContext(before: string, name: string, after: string)
    requires IsSticker(name)
    ensures Classify(before + name + after) == Some(StickerType)
  {
    ContainsInConcat(before, name, StickerTag);
    ContainsInConcat(before, name, StickerExtension);
    ContainsInConcat(before + name, after, StickerTag);
    ContainsInConcat(before + name, after, StickerExtension);
  }

  /** A line ending in either placeholder and naming no sticker gets the media type. */
  lemma MediaSuffix(text: string, placeholder: string)
    requires placeholder == HiddenMedia || placeholder == AttachedFile
    requires !IsSticker(text + placeholder)
    ensures Classify(text + placeholder) == Some(MediaType)
  {
    EndsWithConcat(text, placeholder);
  }

  /** The placeholder spelled with a real "í" (U+00ED) is not recognised: only the mis-decoded spelling is. */
  lemma ProperlyDecodedPlaceholderUntagged()
    ensures Classify("<M\U{00ED}dia oculta>").None?
  {
    var c := "<M\U{00ED}dia oculta>";
    NotContainsWithoutFirstChar(c, StickerTag);
    assert c[|c| - 1] == '>';
  }

  /** Both halves of a sticker are needed: a `.webp` without `STK` is not one. */
  lemma WebpAloneIsNotSticker()
    ensures Classify("foto.webp").None?
  {
    NotContainsWithoutFirstChar("foto.webp", StickerTag);
  }
}
