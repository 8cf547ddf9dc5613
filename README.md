# Caption engine of GPUquick, modelled in Dafny

GPUquick is a small web service. It transcribes an uploaded video with word
timestamps, cuts the words into phrases of six, and renders each phrase (or
each word) as a transparent PNG caption in one of twelve templates. It then
builds an ffmpeg filter graph that overlays the captions over the
cropped-and-scaled video, each caption during its word's or phrase's time
window.

This project models the caption engine of `app.py`:

- **template catalogue** (`Templates`): `CAPTION_TEMPLATES` with its twelve
  entries, in order. It also covers:
  - lookup with the renderer's "default" fallback and the upload handler's
    "MrBeast" fallback;
  - the font-size choice and the case transform;
  - the highlight palette and the highlighting switch;
  - the `/templates` listing.
- **text primitives** (`Text`): `str.split`, `str.strip`, `" ".join`,
  `upper` and `title` on ASCII text, together with their round-trip laws.
- **phrase chunking** (`Chunking`): `chunk_words`.
- **fonts** (`Fonts`): `get_font` and the scale effect's font.
  - The file system (`os.path.exists`) and the TrueType loader are oracle
    functions in a `FileSystem` value.
  - Pillow's text measurement is an oracle `Metrics` value (width and height
    of a string in a font).
- **line wrapping** (`Wrapping`, `WrapFacts`): the greedy loop of
  `render_caption_png_wrapped`, with its word-to-line mapping. The facts
  proved about it are:
  - every line is the words it holds, joined;
  - lines of two or more words fit `MAX_WIDTH`;
  - the greedy rule determines the wrap uniquely.
- **layout** (`Layout`): vertical centring of the line block in the
  300-pixel canvas, horizontal centring of each line, and the scale effect's
  vertical offset, using Python's floor division.
- **stroke and shadow** (`Stroke`): `draw_text_with_stroke`, modelled as the
  sequence of `draw.text` calls it makes.
- **rendering** (`Render`): the per-line and per-word drawing of the
  caption, including:
  - highlight bars;
  - palette cycling;
  - the scale effect;
  - the cursor advance.

  A caption is the sequence of drawing operations (`Text` and rounded `Bar`)
  the renderer issues, in order.
- **upload pipeline** (`Schedule`): the overlay chain of `upload_video`, as
  a `Job`. A `Job` holds:
  - the captions rendered, with their template and highlight index;
  - the `-i` input list;
  - the overlay steps, each with its input label, image index, time window
    and output label;
  - the final output label;
  - the encoder profile: CPU/libx264 when highlighting, CUDA/h264_nvenc
    otherwise.

Times are `real`. Pixel quantities are `int`. Python's `//` and `%` by a
positive divisor coincide with Dafny's `/` and `%`. The line loop, the word
loop, the wrap loop, the stroke ring loop, `chunk_words`, the font search
and the overlay loop are methods with loop invariants.

- Most of them are proved equal to a specification function. The source's
  promises are then proved about those functions as lemmas.
- `WrapText` and `ChunkWords` are proved instead to satisfy relational
  specifications:
  - `WrapText` satisfies `LinePartition` and `Greedy`, and `GreedyUnique`
    shows that only one result meets them.
  - `ChunkWords` satisfies `IsChunking`, and `ChunkSlice` shows that only
    one result meets it.

The comments at `app.py:237` and `app.py:282` state the scaled sizes as
75 px and 80 px. For the first, `int(65 * 1.15)` truncates to 74;
`ScaledSizesOfCatalogue` states 74 and 80.

## Model

| member | source | states |
|---|---|---|
| Text.Split | app.py:401 | the words of `str.split` are non-empty and contain no whitespace |
| Text.SplitJoin | app.py:401-431 | splitting the space-join of whitespace-free words gives the words back |
| Text.SplitStrip | app.py:411 | stripping a string does not change its words |
| Text.SplitJoinPadded | app.py:672 | splitting the joined phrase text gives each spoken word stripped of its padding |
| Text.PaddedToken | app.py:653 | a string that strips to one word splits to exactly that word |
| Text.StripResult | app.py:411 | `strip` yields a substring with no space at either end |
| Text.JoinOfTokens | app.py:411-414 | a join of words is empty iff there are no words, starts with the first word's first letter, and has no padding |
| Text.JoinSnoc | app.py:411-414 | appending a word to a joined line adds exactly one space and the word |
| Text.UpperShape | app.py:381-382 | `upper` keeps length and whitespace positions, and leaves no lower-case letter |
| Text.TitleShape | app.py:383-384 | `title` keeps length and whitespace positions |
| Text.SplitCountByShape | app.py:380-387 | two strings with the same whitespace positions split into the same number of words |
| Chunking.ChunkWords | app.py:320-330 | the phrases concatenate back to the words; each holds 1 to 6 words; all but the last hold exactly 6; there are ⌈n/6⌉ of them |
| Chunking.ChunkSlice | app.py:320-330 | phrase p is the slice of the words from 6p up to 6p+6, cut at the end |
| Chunking.ChunkPosition | app.py:320-330 | word k sits in phrase k / 6 at position k % 6 |
| Chunking.FlattenAppend | app.py:320-330 | concatenating phrase lists concatenates their words |
| Fonts.FirstUsable | app.py:303-317 | the built-in font is chosen iff no candidate path exists and loads; otherwise the first such path, at the requested size |
| Fonts.GetFont | app.py:289-317 | resolves the template, with "default" as fallback, picks the size for the mode, and returns the first usable font |
| Fonts.FindUsableFont | app.py:303-317 | the search loop returns the first candidate that exists and loads at the size, else the built-in font |
| Fonts.FirstExisting | app.py:508-512 | none iff no candidate path exists; otherwise the first existing path |
| Fonts.FindExistingPath | app.py:508-512 | the loop returns the first existing candidate path |
| Fonts.Trunc | app.py:503 | `int()` truncates toward zero |
| Fonts.ScaledFont | app.py:501-519 | when the first existing template path loads at `ScaledSize` (int(font_size · scale_factor), factor 1.2 by default, app.py:502-503), the result is that path at that size; otherwise it is the regular font |
| Fonts.LoadScaledFont | app.py:501-519 | the method returns the scaled font: the first existing path at the scaled size when it loads, else the regular font |
| Fonts.ScaledSizesOfCatalogue | app.py:216-282 | the scaled sizes of esports_caption and Reaction Pop are 74 and 80 |
| Templates.Keys | app.py:30-284 | the keys of the catalogue, in order |
| Templates.Find | app.py:378 | `dict.get`: none iff the key is absent, else the entry stored under it |
| Templates.CatalogKeysDistinct | app.py:30-284 | the twelve keys are pairwise distinct, so each names exactly one template |
| Templates.UploadAndRendererAgree | app.py:586-589 | the key the upload handler settles on is in the catalogue, and the renderer resolves it to the same template |
| Templates.FallbacksDiffer | app.py:586-589 | an unknown name is rendered as "default" but uploaded as "MrBeast", and the two templates differ |
| Templates.FontSize | app.py:297-301 | in word-by-word mode on a word-by-word template with an enhanced size, the size is that enhanced size; in every other case it is `font_size` |
| Templates.ApplyCaseRules | app.py:380-384 | `uppercase` wins over `title_case`; either keeps the whitespace shape and the word count |
| Templates.HighlightingAgreesWithPalette | app.py:591-592 | a non-empty renderer palette (`HighlightColors`, app.py:391) turns upload highlighting on (`UseHighlighting`). On every catalogue template, highlighting is on iff the palette is non-empty |
| Templates.HighlightingWithoutPalette | app.py:591-592 | the only way highlighting is on with an empty palette is an empty `highlight_colors` next to a set `highlight_color` |
| Templates.ListEntries | app.py:547-558 | one listing entry per template, in order, with its id, name, size, description and the three effect flags, highlighting agreeing with the upload switch |
| Templates.ListTemplates | app.py:545-563 | the whole catalogue is listed, and the current template is a catalogue key |
| Wrapping.FirstAt | app.py:452-455 | the first index mapped to a line, with no earlier one |
| Wrapping.RecordLine | app.py:419-420 | closing a line appends its index once per word it holds |
| Wrapping.WrapStep | app.py:410-426 | each iteration of the wrap loop keeps the wrap invariant in all three branches: fits, closes a line, or starts an empty line |
| Wrapping.WrapWord | app.py:411-426 | one iteration of the wrap loop preserves the wrap invariant and the line counter |
| Wrapping.WrapFinish | app.py:428-431 | flushing the last line gives a complete greedy line partition; the pending line is empty iff there are no words |
| Wrapping.WrapText | app.py:401-431 | the lines and mapping partition the split words into consecutive lines, each the join of its words, and follow the greedy rule |
| Wrapping.LineAt | app.py:401-431 | line j is the join of the words mapped to it |
| WrapFacts.LineWords | app.py:437-438 | re-splitting line j gives back exactly the words mapped to it |
| WrapFacts.HighlightTarget | app.py:457-460 | the renderer's index arithmetic hits word h iff h is on this line at this position |
| WrapFacts.HighlightReached | app.py:448-460 | every word index lies within its own line's range |
| WrapFacts.MultiWordLinesFit | app.py:411-415 | a line of two or more words measures at most `MAX_WIDTH` |
| WrapFacts.OverlongAlone | app.py:416-426 | a word wider than `MAX_WIDTH` forms a line by itself |
| WrapFacts.GreedyUnique | app.py:410-431 | two line partitions that both follow the greedy rule are equal |
| WrapFacts.RewrapWords | app.py:401-431 | the lines of a partition, joined by single spaces, split back into exactly the original words |
| WrapFacts.RewrapIdempotent | app.py:401-431 | re-wrapping the joined lines of a greedy wrap gives the same lines and the same mapping |
| Layout.Half | app.py:434 | floor division by two, also for a negative room |
| Layout.YStart | app.py:433-434 | the space above the block equals the space below or one less, and is negative when the block overflows the canvas |
| Layout.XStart | app.py:439-440 | the left and right margins of a line differ by at most one pixel |
| Layout.UniformTotal | app.py:433 | with a common line height h the block is |lines|·(h + spacing) tall |
| Layout.UniformLines | app.py:441 | with a common height, consecutive lines stack without gap or overlap |
| Layout.ScaledYOffset | app.py:522-524 | the scaled word's middle is level with the regular word's, within half a pixel |
| Stroke.DrawRow | app.py:366-368 | the inner loop draws row dx at every dy from -w to w, skipping the centre |
| Stroke.DrawRing | app.py:364-368 | the nested loops draw exactly the ring offsets, in row order |
| Stroke.DrawTextWithStroke | app.py:344-371 | makes exactly the calls of `StrokePlan`: the shadow ring, the shadow, the stroke ring and the text, each only when enabled |
| Stroke.RingExact | app.py:365-367 | the ring is every offset within the stroke width except the centre, each once, in (dx, dy) order, (2w+1)²−1 of them |
| Stroke.StrokePlanShape | app.py:344-371 | the counts: the shadow part has ring + 1 calls when on, and the final call is the text in its own colour at its own position |
| Stroke.StrokePlanShadow | app.py:349-361 | the shadow part is non-empty iff shadow is on; every call in it uses the shadow colour, and its last call is at the shadow offset |
| Stroke.StrokePlanShadowRing | app.py:354-358 | the shadow's ring calls surround the shadow position, never at its centre |
| Stroke.StrokePlanRing | app.py:363-368 | every call between the shadow and the final text is in the stroke colour at a ring offset, never at the centre |
| Stroke.RingCovers | app.py:364-368 | every ring offset is drawn in the stroke colour |
| Render.BarAround | app.py:466-487 | the bar extends the word's box by the padding on each side, with corner radius 8 and the palette colour |
| Render.LineStartIndex | app.py:448-455 | the loop finds the first word index mapped to the line, or 0 |
| Render.DrawScaled | app.py:501-527 | the scale-effect branch draws and advances as the word plan says |
| Render.DrawHighlighted | app.py:460-530 | the highlighted word, with a bar or in the palette colour, is drawn as the word plan says |
| Render.DrawWord | app.py:457-536 | one word is drawn as the word plan says |
| Render.DrawWords | app.py:457-536 | the word loop draws the plan of the line's words, advancing the cursor |
| Render.DrawLine | app.py:437-536 | one line is drawn whole when plain, word by word otherwise |
| Render.DrawLines | app.py:437-536 | the line loop draws the plan of every line in order |
| Render.RenderCaption | app.py:374-538 | wraps the cased text greedily and draws the line plan at the centred start. The style (`StyleFor`) takes the palette from `HighlightColors` (app.py:391). Its font is resolved in word-by-word mode exactly when the cased text is one word of a word-by-word template (`WordByWordCaption`, app.py:387) |
| Render.WordTreatment | app.py:457-534 | a non-target word uses the text colour; the target gets a bar and the text colour, or the palette colour h mod the palette length |
| Render.PlainLine | app.py:443-445 | with no palette or no highlight index, the line is drawn whole, centred, in the text colour |
| Render.HighlightedWord | app.py:437-460 | word p of line j is word StartIndex + p of the caption, and it is the target iff its global index is h |
| Render.CursorPosition | app.py:448-536 | with no scaled word before it, the cursor is the line start plus the widths of the preceding words, each with its space |
| Schedule.FromScaled | app.py:711-713 | the rewrite replaces the first step's source label by the scaled label and leaves the rest unchanged |
| Schedule.AddFrame | app.py:660-667 | one caption adds one input pair and one overlay step linked to the previous step |
| Schedule.AddPhrase | app.py:645-705 | a phrase adds its frames: one per word in word-by-word or highlight mode, otherwise one for the phrase |
| Schedule.ChainPhrases | app.py:645-705 | the loop over phrases builds the chain of all frames in order |
| Schedule.BuildJob | app.py:581-751 | one input pair and one overlay per frame (`PhraseFrames`, app.py:645-705), each in its own time window. The first overlay reads the scaled video and each later one the previous output. The last output is mapped, and the CPU profile is taken iff highlighting |
| Schedule.UploadVideo | app.py:566-751 | chunks the words and settles the template. The job is the frames' captions and `-i` pairs, with one overlay per word in per-word mode, else one per phrase. Each overlay runs in its frame's window, the first reads [scaled], each later one reads the previous output, and the last output is mapped. The CPU profile is taken iff highlighting |
| Schedule.FrameCount | app.py:645-705 | the number of frames is the number of words in per-word mode, else the number of phrases |
| Schedule.WordFrames | app.py:650-692 | in per-word mode, frame k shows during word k's window and is registered under the template key. In word-by-word mode it shows that word alone, stripped, with no highlight |
| Schedule.PhraseFramesWindow | app.py:670-705 | in phrase mode, frame p shows the joined and stripped phrase from its first word's start to its last word's end |
| Schedule.PhraseWords | app.py:672 | the words of the phrase text are the spoken words, stripped |
| Schedule.HighlightedIsSpoken | app.py:676-683 | in highlight mode, frame i highlights word i of the phrase text, which is the i-th spoken word, during that word's window |
| Schedule.Wired | app.py:707-713 | after the rewrite the first step reads the scaled video, each step reads the previous output, and the last output is step N |

## Left out

- Pixel output is not modelled. This covers Pillow rasterisation, RGBA
  compositing, pasting the bar image and saving the PNG: a caption is the
  sequence of drawing calls. Text measurement (`get_text_size`) is the
  `Metrics` oracle.
- The built-in-font `except` path of `get_font` (`app.py:312-317`) is not
  modelled separately: both branches return the same built-in font.
- `os.path.exists` and `ImageFont.truetype` are oracle functions.
  - A loader exception skips a path in `get_font`.
  - A loader exception makes the scaled font fall back to the regular one.
- Out of scope: the FastAPI routes, file upload and download, Whisper
  transcription, uuid file naming, `subprocess`, the ffmpeg process itself,
  and every `print` log line. Caption images are identified by their index
  in the chain, not by file path.
- The exact filter-graph text is not modelled. This covers the crop/scale
  prefix, `CAPTION_Y_POSITION` and the `x=(W-w)/2` overlay position, and the
  float formatting of the time windows.
- Schedule.BuildJob: models the CUDA variant's `scale_cuda`/`overlay_cuda`
  string rewrite only as the `Cuda` profile and its encoder name. It does
  not model the rewritten text.
- Fonts.Trunc: times and the scale factor are exact reals, so IEEE rounding
  is not modelled. For the catalogue's two scaled templates it gives the
  same sizes.
- Text.UpperShape: `upper` and `title` are modelled on ASCII letters only;
  Unicode case mapping is not modelled. `str.split` and `str.strip` use Python's
  full set of whitespace characters.
- Descriptions are a table parallel to the catalogue (`CAPTION_DESCRIPTIONS`)
  rather than a field of each template. The "No description available"
  fallback never applies, since every entry has a description.
- WrapFacts.OverlongAlone: it holds only under the hypothesis that no run of
  words containing the overlong word measures narrower than the word alone.
  A real font has that property; the `Metrics` oracle is not constrained.
- Render.CursorPosition: it is stated only for lines with no scaled word
  before the cursor. A scaled word advances by its width in the scaled font.
- `test_setup.py` checks the installation and is not part of this model.
