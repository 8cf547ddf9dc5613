/**
 * The upload handler's caption schedule: the transcribed words are chunked
 * into phrases, one caption image is requested per frame (per word in the
 * word-by-word and highlighting modes, per phrase otherwise), and each frame
 * becomes one step of a chain of timed overlays on the scaled video, read
 * from its own "-i" input. The encoder profile follows the highlighting mode.
 */
module Schedule {
  import opened Wrappers
  import opened Text
  import opened Templates
  import opened Chunking

  /** A transcribed word: Whisper's text (which usually keeps a leading
      space) and its time window in seconds, only ever copied. */
  datatype Word = Word(text: string, start: real, end: real)

  /** A stream of the filter graph: the source video [0:v], the cropped and
      scaled video [scaled], or the output [vk] of overlay step k. */
  datatype Label = Source | Scaled | Step(k: nat)

  /** One call of the caption renderer: the text, the index of the word to
      highlight, and the (validated) template name. */
  datatype Caption = Caption(text: string, highlight: Option<nat>, template: string)

  /** A caption and the time window in which it is shown. */
  datatype Frame = Frame(caption: Caption, start: real, end: real)

  /** One overlay step: the stream it reads, the ffmpeg input number of its
      caption image, its enable window and the stream it writes. */
  datatype Overlay = Overlay(input: Label, image: nat, start: real, end: real, output: Label)

  /** An element of the ffmpeg input list: the "-i" flag or the k-th caption
      image (input number k; input 0 is the uploaded video). */
  datatype InputArg = InputFlag | CaptionImage(k: nat)

  /** The encoder profile: libx264 on the CPU, or CUDA decoding with the
      h264_nvenc encoder and the CUDA variants of the scale and overlay filters. */
  datatype Profile = Cpu | Cuda
  {
    function Encoder(): string
    {
      match this
      case Cpu => "libx264"
      case Cuda => "h264_nvenc"
    }
  }

  /** What the handler hands to ffmpeg, besides the fixed arguments. */
  datatype Job = Job(captions: seq<Caption>, inputs: seq<InputArg>, overlays: seq<Overlay>,
                     lastOutput: Label, profile: Profile)

  /** The loop's running state: captions requested, the input list, the
      overlay commands and the next input number. */
  datatype Chain = Chain(captions: seq<Caption>, inputs: seq<InputArg>, overlays: seq<Overlay>, count: nat)

  // ---------------------------------------------------------------------
  // The frames a transcript yields

  function Texts(phrase: seq<Word>): seq<string>
  {
    seq(|phrase|, i requires 0 <= i < |phrase| => phrase[i].text)
  }

  /** The caption of a phrase: its raw word texts joined by spaces, stripped. */
  function PhraseText(phrase: seq<Word>): string
  {
    Strip(Join(Texts(phrase)))
  }

  /** The frames of one phrase under template t (registered as key). */
  function PhraseFrames(phrase: seq<Word>, t: Template, key: string): seq<Frame>
    requires phrase != []
  {
    if t.wordByWord then
      seq(|phrase|, i requires 0 <= i < |phrase| =>
        Frame(Caption(Strip(phrase[i].text), None, key), phrase[i].start, phrase[i].end))
    else if UseHighlighting(t) then
      seq(|phrase|, i requires 0 <= i < |phrase| =>
        Frame(Caption(PhraseText(phrase), Some(i), key), phrase[i].start, phrase[i].end))
    else
      [Frame(Caption(PhraseText(phrase), None, key), phrase[0].start, phrase[|phrase| - 1].end)]
  }

  predicate NonEmptyPhrases(phrases: seq<seq<Word>>)
  {
    forall p :: 0 <= p < |phrases| ==> phrases[p] != []
  }

  /** All frames, phrase after phrase. */
  function Frames(phrases: seq<seq<Word>>, t: Template, key: string): seq<Frame>
    requires NonEmptyPhrases(phrases)
  {
    if phrases == [] then [] else PhraseFrames(phrases[0], t, key) + Frames(phrases[1..], t, key)
  }

  /** A mode with one frame per word. */
  predicate PerWord(t: Template)
  {
    t.wordByWord || UseHighlighting(t)
  }

  // ---------------------------------------------------------------------
  // The overlay chain, in closed form

  function Captions(frames: seq<Frame>): seq<Caption>
  {
    seq(|frames|, i requires 0 <= i < |frames| => frames[i].caption)
  }

  /** "-i", image 1, "-i", image 2, ... for n images. */
  function InputList(n: nat): seq<InputArg>
  {
    seq(2 * n, i requires 0 <= i < 2 * n => if i % 2 == 0 then InputFlag else CaptionImage(i / 2 + 1))
  }

  /** The overlay commands as the loop appends them: step k + 1 reads the
      source video when it is the first and the previous step's output
      otherwise, and overlays image k + 1 during frame k's window. */
  function AppendedSteps(frames: seq<Frame>): seq<Overlay>
  {
    seq(|frames|, k requires 0 <= k < |frames| =>
      Overlay(if k == 0 then Source else Step(k), k + 1, frames[k].start, frames[k].end, Step(k + 1)))
  }

  function ChainOf(frames: seq<Frame>): Chain
  {
    Chain(Captions(frames), InputList(|frames|), AppendedSteps(frames), |frames| + 1)
  }

  /** The first command's [0:v] renamed to [scaled]. */
  function FromScaled(o: Overlay): (r: Overlay)
    ensures r.input != Source && r.output == o.output
    ensures o.input == Source ==> r.input == Scaled
    ensures o.input != Source ==> r == o
  {
    if o.input == Source then o.(input := Scaled) else o
  }

  // ---------------------------------------------------------------------
  // The handler

  /** Appends one frame: its render request, its "-i" pair and its overlay. */
  method AddFrame(chain: Chain, ghost frames: seq<Frame>, caption: Caption, start: real, end: real)
    returns (next: Chain)
    requires chain == ChainOf(frames)
    ensures next == ChainOf(frames + [Frame(caption, start, end)])
  {
    var count := chain.count;
    var overlay;
    if count == 1 {
      overlay := Overlay(Source, count, start, end, Step(count));
    } else {
      overlay := Overlay(Step(count - 1), count, start, end, Step(count));
    }
    next := Chain(chain.captions + [caption], chain.inputs + [InputFlag, CaptionImage(count)],
                  chain.overlays + [overlay], count + 1);
    ghost var frames' := frames + [Frame(caption, start, end)];
    assert next.captions == Captions(frames');
    assert next.inputs == InputList(|frames'|);
    assert next.overlays == AppendedSteps(frames');
  }

  /** The frames of one phrase appended to the chain, as the handler's inner
      loops do. */
  method AddPhrase(chain: Chain, ghost frames: seq<Frame>, phrase: seq<Word>, t: Template, key: string)
    returns (next: Chain)
    requires chain == ChainOf(frames) && phrase != []
    ensures next == ChainOf(frames + PhraseFrames(phrase, t, key))
  {
    ghost var pf := PhraseFrames(phrase, t, key);
    ghost var frames' := frames;
    next := chain;
    if t.wordByWord {
      for i := 0 to |phrase|
        invariant frames' == frames + pf[..i]
        invariant next == ChainOf(frames')
      {
        var w := phrase[i];
        next := AddFrame(next, frames', Caption(Strip(w.text), None, key), w.start, w.end);
        frames' := frames' + [pf[i]];
        assert pf[..i + 1] == pf[..i] + [pf[i]];
      }
      assert pf[..|phrase|] == pf;
    } else {
      var text := Strip(Join(Texts(phrase)));
      if UseHighlighting(t) {
        for i := 0 to |phrase|
          invariant frames' == frames + pf[..i]
          invariant next == ChainOf(frames')
        {
          var w := phrase[i];
          next := AddFrame(next, frames', Caption(text, Some(i), key), w.start, w.end);
          frames' := frames' + [pf[i]];
          assert pf[..i + 1] == pf[..i] + [pf[i]];
        }
        assert pf[..|phrase|] == pf;
      } else {
        next := AddFrame(next, frames', Caption(text, None, key), phrase[0].start, phrase[|phrase| - 1].end);
        frames' := frames' + pf;
      }
    }
  }

  lemma {:induction false} FramesSnoc(phrases: seq<seq<Word>>, phrase: seq<Word>, t: Template, key: string)
    requires NonEmptyPhrases(phrases) && phrase != []
    ensures NonEmptyPhrases(phrases + [phrase])
    ensures Frames(phrases + [phrase], t, key) == Frames(phrases, t, key) + PhraseFrames(phrase, t, key)
    decreases |phrases|
  {
    if phrases != [] {
      assert (phrases + [phrase])[1..] == phrases[1..] + [phrase];
      FramesSnoc(phrases[1..], phrase, t, key);
    }
  }

  /** The loop over the phrases: every frame requested and chained in order. */
  method ChainPhrases(phrases: seq<seq<Word>>, t: Template, key: string)
    returns (chain: Chain)
    requires NonEmptyPhrases(phrases)
    ensures chain == ChainOf(Frames(phrases, t, key))
  {
    chain := Chain([], [], [], 1);
    ghost var frames := [];
    for p := 0 to |phrases|
      invariant NonEmptyPhrases(phrases[..p])
      invariant frames == Frames(phrases[..p], t, key)
      invariant chain == ChainOf(frames)
    {
      FramesSnoc(phrases[..p], phrases[p], t, key);
      assert phrases[..p + 1] == phrases[..p] + [phrases[p]];
      chain := AddPhrase(chain, frames, phrases[p], t, key);
      frames := frames + PhraseFrames(phrases[p], t, key);
    }
    assert phrases[..|phrases|] == phrases;
  }

  /** The chain with its first command renamed to read [scaled]: every step
      reads the one before it and the map label is the last step's output. */
  lemma Wired(frames: seq<Frame>)
    requires frames != []
    ensures var o := AppendedSteps(frames)[0 := FromScaled(AppendedSteps(frames)[0])];
      && o[0].input == Scaled
      && (forall k :: 0 < k < |o| ==> o[k].input == o[k - 1].output)
      && (forall k :: 0 <= k < |o| ==> o[k].image == k + 1 && o[k].output == Step(k + 1)
                                       && o[k].start == frames[k].start && o[k].end == frames[k].end)
      && o[|o| - 1].output == Step(|frames|)
  {
  }

  /** The job renders one caption per frame and wires one overlay per frame:
      a "-i" pair per image, step k + 1 overlaying image k + 1 during frame
      k's window, the first step reading [scaled], each later step reading
      the step before it, and the map label the last step's output
      ([scaled] when there is no caption). */
  ghost predicate WiredJob(job: Job, frames: seq<Frame>)
  {
    && job.captions == Captions(frames)
    && |job.overlays| == |frames|
    && job.inputs == InputList(|frames|)
    && (forall k :: 0 <= k < |job.overlays| ==>
          && job.overlays[k].image == k + 1
          && job.overlays[k].output == Step(k + 1)
          && job.overlays[k].start == frames[k].start
          && job.overlays[k].end == frames[k].end)
    && (job.overlays != [] ==> job.overlays[0].input == Scaled)
    && (forall k :: 0 < k < |job.overlays| ==> job.overlays[k].input == job.overlays[k - 1].output)
    && job.lastOutput == if job.overlays == [] then Scaled else job.overlays[|job.overlays| - 1].output
  }

  /** The loop over the phrases and the final wiring of the filter chain:
      the first step reads [scaled], each later step reads the step before
      it, the map label is the last step's output ([scaled] when there is no
      caption), and the CPU profile is taken exactly when highlighting is on. */
  method BuildJob(phrases: seq<seq<Word>>, t: Template, key: string) returns (job: Job)
    requires NonEmptyPhrases(phrases)
    ensures WiredJob(job, Frames(phrases, t, key))
    ensures job.profile == Cpu <==> UseHighlighting(t)
  {
    var chain := ChainPhrases(phrases, t, key);
    ghost var frames := Frames(phrases, t, key);
    var overlays := chain.overlays;
    var lastOutput := if overlays != [] then Step(chain.count - 1) else Source;
    if overlays != [] {
      overlays := overlays[0 := FromScaled(overlays[0])];
      Wired(frames);
    } else {
      lastOutput := Scaled;
    }
    var profile := if UseHighlighting(t) then Cpu else Cuda;
    job := Job(chain.captions, chain.inputs, overlays, lastOutput, profile);
  }

  /** upload_video from the transcript on: the phrases, the template (an
      unknown name falls back to "MrBeast", whose name is then passed to the
      renderer) and the job built from them. */
  method UploadVideo(words: seq<Word>, template: string) returns (phrases: seq<seq<Word>>, job: Job)
    ensures IsChunking(words, phrases)
    ensures IsKey(UploadTemplateKey(template))
    ensures NonEmptyPhrases(phrases)
    ensures WiredJob(job, Frames(phrases, UploadTemplate(template), UploadTemplateKey(template)))
    ensures |job.overlays| == if PerWord(UploadTemplate(template)) then |words| else |phrases|
    ensures job.profile == Cpu <==> UseHighlighting(UploadTemplate(template))
  {
    phrases := ChunkWords(words);
    var key := UploadTemplateKey(template);
    var t := UploadTemplate(template);
    UploadAndRendererAgree(template);
    job := BuildJob(phrases, t, key);
    FrameCount(phrases, t, key);
  }

  // ---------------------------------------------------------------------
  // Properties of the frames

  /** N frames: one per word in the per-word modes, one per phrase otherwise. */
  lemma {:induction false} FrameCount(phrases: seq<seq<Word>>, t: Template, key: string)
    requires NonEmptyPhrases(phrases)
    ensures |Frames(phrases, t, key)| == if PerWord(t) then |Flatten(phrases)| else |phrases|
    decreases |phrases|
  {
    if phrases != [] {
      FrameCount(phrases[1..], t, key);
    }
  }

  /** Frame f is word w's: shown during w's window, registered under key, and
      in the word-by-word mode showing w alone, stripped, with no highlight. */
  predicate ShowsWord(f: Frame, w: Word, t: Template, key: string)
  {
    && f.start == w.start && f.end == w.end && f.caption.template == key
    && (t.wordByWord ==> f.caption == Caption(Strip(w.text), None, key))
  }

  /** In the per-word modes frame k is word k's. */
  lemma {:induction false} WordFrames(phrases: seq<seq<Word>>, t: Template, key: string, k: nat)
    requires NonEmptyPhrases(phrases) && PerWord(t)
    requires k < |Flatten(phrases)|
    ensures k < |Frames(phrases, t, key)|
    ensures ShowsWord(Frames(phrases, t, key)[k], Flatten(phrases)[k], t, key)
    decreases |phrases|
  {
    FrameCount(phrases, t, key);
    var pf, rest := PhraseFrames(phrases[0], t, key), Frames(phrases[1..], t, key);
    var words := Flatten(phrases[1..]);
    assert Frames(phrases, t, key) == pf + rest;
    assert Flatten(phrases) == phrases[0] + words;
    var n := |phrases[0]|;
    ConcatAt(pf, rest, k);
    ConcatAt(phrases[0], words, k);
    if k < n {
      WordFrameAt(phrases[0], t, key, k);
    } else {
      WordFrameAt(phrases[0], t, key, 0);
      FrameCount(phrases[1..], t, key);
      WordFrames(phrases[1..], t, key, k - n);
    }
  }

  /** In the per-word modes frame i of a phrase is word i's. */
  lemma WordFrameAt(phrase: seq<Word>, t: Template, key: string, i: nat)
    requires phrase != [] && PerWord(t) && i < |phrase|
    ensures |PhraseFrames(phrase, t, key)| == |phrase|
    ensures ShowsWord(PhraseFrames(phrase, t, key)[i], phrase[i], t, key)
  {
  }

  lemma ConcatAt<T>(a: seq<T>, b: seq<T>, k: nat)
    requires k < |a| + |b|
    ensures (a + b)[k] == if k < |a| then a[k] else b[k - |a|]
  {
  }

  /** In the phrase mode frame p spans phrase p, from its first word's start
      to its last word's end, and shows the whole phrase without highlight. */
  lemma {:induction false} PhraseFramesWindow(phrases: seq<seq<Word>>, t: Template, key: string, p: nat)
    requires NonEmptyPhrases(phrases) && !PerWord(t)
    requires p < |phrases|
    ensures p < |Frames(phrases, t, key)|
    ensures Frames(phrases, t, key)[p] ==
              Frame(Caption(PhraseText(phrases[p]), None, key), phrases[p][0].start, phrases[p][|phrases[p]| - 1].end)
    decreases p
  {
    FrameCount(phrases, t, key);
    if p > 0 {
      PhraseFramesWindow(phrases[1..], t, key, p - 1);
    }
  }

  /** A transcript word whose text strips to one token. */
  predicate CleanWords(phrase: seq<Word>)
  {
    forall i :: 0 <= i < |phrase| ==> IsToken(Strip(phrase[i].text))
  }

  /** The words the renderer finds in a phrase's caption are the phrase's
      words, stripped, one for one. */
  lemma PhraseWords(phrase: seq<Word>)
    requires CleanWords(phrase)
    ensures Split(PhraseText(phrase)) == seq(|phrase|, i requires 0 <= i < |phrase| => Strip(phrase[i].text))
  {
    SplitStrip(Join(Texts(phrase)));
    SplitJoinPadded(Texts(phrase));
  }

  /** With highlighting (and not word by word), the frame of a phrase's
      i-th word asks the renderer to highlight word i of the phrase's caption,
      and that word is the one being spoken during the frame. */
  lemma HighlightedIsSpoken(phrase: seq<Word>, t: Template, key: string, i: nat)
    requires phrase != [] && CleanWords(phrase)
    requires !t.wordByWord && UseHighlighting(t) && i < |phrase|
    ensures |PhraseFrames(phrase, t, key)| == |phrase|
    ensures PhraseFrames(phrase, t, key)[i].caption.highlight == Some(i)
    ensures i < |Split(PhraseFrames(phrase, t, key)[i].caption.text)|
    ensures Split(PhraseFrames(phrase, t, key)[i].caption.text)[i] == Strip(phrase[i].text)
    ensures PhraseFrames(phrase, t, key)[i].start == phrase[i].start
    ensures PhraseFrames(phrase, t, key)[i].end == phrase[i].end
  {
    PhraseWords(phrase);
  }
}
