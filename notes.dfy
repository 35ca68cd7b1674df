/**
 * What `create_note` puts into one Anki note, as functions of the card's
 * fields, the language, the session counter `index` and the pending image
 * files: the ordered field list of the note type, the speech files it asks
 * for, and the media file names it appends to the session's media list.
 */
module Notes {
  import opened Wrappers
  import opened Text
  import opened Gender
  import opened Cards

  /** The genanki model id of each note type. */
  function ModelId(m: Mode): int {
    match m
    case Lexicon => 1284830180
    case Pronunciation => 1081735104
    case Grammar => 1091735125
  }

  /** The fields each note type declares, in order. */
  function DeclaredFields(m: Mode): seq<string> {
    match m
    case Lexicon =>
      ["baseS", "baseT", "AbaseT", "fullT", "AfullT", "s1T", "As1T", "s2T", "As2T", "image1", "image2"]
    case Pronunciation => ["Question", "MyMedia"]
    case Grammar => ["Question", "Answer", "MyMedia", "explanation"]
  }

  /** A note in the deck: its note type and its field values. */
  datatype Note = Note(model: Mode, fields: seq<string>)

  /** A speech file the note asks for: its file name and the text spoken. */
  datatype Audio = Audio(name: string, text: string)

  /** The fields of a card that `create_note` reads for a note type (a missing one raises `KeyError`). */
  predicate HasKeys(m: Mode, f: Record) {
    match m
    case Lexicon => BaseS in f && BaseT in f && FullT in f && S1T in f && S2T in f
    case Pronunciation => Word in f
    case Grammar => Front in f && Back in f
  }

  // ---------------------------------------------------------------------
  // Media references and file names

  const SoundOpen := "[sound:"
  const SoundClose := "]"
  const ImageOpen := "<img src=\""
  const ImageClose := "\">"

  /** The Anki field text that plays a sound file. */
  function SoundRef(name: string): string {
    SoundOpen + name + SoundClose
  }

  /** The HTML field text that shows an image file. */
  function ImageRef(name: string): string {
    ImageOpen + name + ImageClose
  }

  /** The file a field refers to, when the field has the shape of a sound or image reference. */
  function RefTarget(slot: string): Option<string> {
    if |slot| >= |SoundOpen| + |SoundClose| && slot[..|SoundOpen|] == SoundOpen
      && slot[|slot| - |SoundClose|..] == SoundClose
    then Some(slot[|SoundOpen|..|slot| - |SoundClose|])
    else if |slot| >= |ImageOpen| + |ImageClose| && slot[..|ImageOpen|] == ImageOpen
      && slot[|slot| - |ImageClose|..] == ImageClose
    then Some(slot[|ImageOpen|..|slot| - |ImageClose|])
    else None
  }

  /** A sound reference names its file, an image reference too, and an empty field names none. */
  lemma RefTargets(name: string)
    ensures RefTarget(SoundRef(name)) == Some(name)
    ensures RefTarget(ImageRef(name)) == Some(name)
    ensures RefTarget("") == None
  {
    var s := SoundRef(name);
    assert s[..|SoundOpen|] == SoundOpen && s[|s| - |SoundClose|..] == SoundClose;
    assert s[|SoundOpen|..|s| - |SoundClose|] == name;
    var g := ImageRef(name);
    assert g[..|SoundOpen|] != SoundOpen by {
      assert g[0] == '<';
    }
    assert g[..|ImageOpen|] == ImageOpen && g[|g| - |ImageClose|..] == ImageClose;
    assert g[|ImageOpen|..|g| - |ImageClose|] == name;
  }

  /** `f"sound{index}_{i}.mp3"`: the speech file of the i-th spoken field of a lexicon note. */
  function LexiconSoundName(index: nat, i: nat): string {
    "sound" + NatToString(index) + "_" + NatToString(i) + ".mp3"
  }

  /** `f"sound_{word}_{index}.mp3"`: the speech file of a pronunciation note. */
  function PronunciationSoundName(word: string, index: nat): string {
    "sound_" + word + "_" + NatToString(index) + ".mp3"
  }

  /** `f"sound_grammar_{index}.mp3"`: the speech file of a grammar note. */
  function GrammarSoundName(index: nat): string {
    "sound_grammar_" + NatToString(index) + ".mp3"
  }

  /** `f"image{index}_{i}.png"`: the i-th image file saved for the card being written. */
  function ImageName(index: nat, i: nat): string {
    "image" + NatToString(index) + "_" + NatToString(i) + ".png"
  }

  // ---------------------------------------------------------------------
  // The lexicon note

  /** The card fields that are spoken, in order; the i-th one's file is `sound{index}_{i}.mp3`. */
  const AudioKeys: seq<Key> := [BaseT, FullT, S1T, S2T]

  /** The i-th spoken field of the card, as entered. */
  function Spoken(f: Record, i: nat): string
    requires HasKeys(Lexicon, f) && i < |AudioKeys|
  {
    f[AudioKeys[i]]
  }

  /** The text the note shows for the i-th spoken field: `fullT` in its gender colour, the others as entered. */
  function ShownText(f: Record, lang: string, i: nat): string
    requires HasKeys(Lexicon, f) && i < |AudioKeys|
  {
    if AudioKeys[i] == FullT then ColorGender(Spoken(f, i), lang) else Spoken(f, i)
  }

  /** The text/audio pair of the i-th spoken field; an empty field gives two empty slots. */
  function Pair(f: Record, lang: string, index: nat, i: nat): (p: seq<string>)
    requires HasKeys(Lexicon, f) && i < |AudioKeys|
    ensures |p| == 2
  {
    if Spoken(f, i) == "" then ["", ""]
    else [ShownText(f, lang, i), SoundRef(LexiconSoundName(index, i))]
  }

  /** The pairs of the first n spoken fields, in order. */
  function Pairs(f: Record, lang: string, index: nat, n: nat): (ps: seq<string>)
    requires HasKeys(Lexicon, f) && n <= |AudioKeys|
    ensures |ps| == 2 * n
  {
    if n == 0 then [] else Pairs(f, lang, index, n - 1) + Pair(f, lang, index, n - 1)
  }

  /** The speech file of the i-th spoken field, if it is not empty; the text spoken is the uncoloured one. */
  function SpokenField(f: Record, index: nat, i: nat): seq<Audio>
    requires HasKeys(Lexicon, f) && i < |AudioKeys|
  {
    if Spoken(f, i) == "" then [] else [Audio(LexiconSoundName(index, i), Spoken(f, i))]
  }

  /** The speech files of the first n spoken fields, in order. */
  function LexiconAudio(f: Record, index: nat, n: nat): seq<Audio>
    requires HasKeys(Lexicon, f) && n <= |AudioKeys|
  {
    if n == 0 then [] else LexiconAudio(f, index, n - 1) + SpokenField(f, index, n - 1)
  }

  /** At most one speech file per spoken field, and none of them speaks an empty text. */
  lemma {:induction false} LexiconAudioSpoken(f: Record, index: nat, n: nat)
    requires HasKeys(Lexicon, f) && n <= |AudioKeys|
    ensures |LexiconAudio(f, index, n)| <= n
    ensures forall k :: 0 <= k < |LexiconAudio(f, index, n)| ==> LexiconAudio(f, index, n)[k].text != ""
  {
    if n > 0 {
      LexiconAudioSpoken(f, index, n - 1);
    }
  }

  /** `[f'<img src="{name}">' for name in image_filename]`. */
  function ImageRefs(names: seq<string>): (refs: seq<string>)
    ensures |refs| == |names|
    ensures forall k :: 0 <= k < |names| ==> refs[k] == ImageRef(names[k])
  {
    seq(|names|, k requires 0 <= k < |names| => ImageRef(names[k]))
  }

  /** A list padded with empty strings up to two entries; a longer list is kept as it is. */
  function PadTo2(s: seq<string>): (r: seq<string>)
    ensures |r| == if |s| < 2 then 2 else |s|
    ensures r[..|s|] == s
    ensures forall k :: |s| <= k < |r| ==> r[k] == ""
  {
    if |s| < 2 then s + seq(2 - |s|, _ => "") else s
  }

  /** The lexicon note: `baseS`, the four text/audio pairs, then two image slots. */
  function LexiconFields(f: Record, lang: string, index: nat, images: seq<string>): (fs: seq<string>)
    requires HasKeys(Lexicon, f)
    ensures |fs| == 1 + 2 * |AudioKeys| + (if |images| < 2 then 2 else |images|)
    ensures fs[0] == f[BaseS]
    ensures |images| <= 2 ==> Targets(fs[1 + 2 * |AudioKeys|..]) == images
  {
    var slots := PadTo2(ImageRefs(images));
    var fs := [f[BaseS]] + Pairs(f, lang, index, |AudioKeys|) + slots;
    assert fs[1 + 2 * |AudioKeys|..] == slots;
    if |images| <= 2 then ImageSlotTargets(images); fs else fs
  }

  // ---------------------------------------------------------------------
  // Any note

  /** The field list `create_note` builds for a card. */
  function NoteFields(m: Mode, f: Record, lang: string, index: nat, images: seq<string>): (fs: seq<string>)
    requires HasKeys(m, f)
    ensures (m != Lexicon || |images| <= 2) ==> |fs| == |DeclaredFields(m)|
    ensures m == Lexicon ==> |fs| == 1 + 2 * |AudioKeys| + (if |images| < 2 then 2 else |images|)
  {
    match m
    case Lexicon => LexiconFields(f, lang, index, images)
    case Pronunciation => [f[Word], SoundRef(PronunciationSoundName(f[Word], index))]
    case Grammar =>
      [f[Front], f[Back], SoundRef(GrammarSoundName(index)), if Rule in f then f[Rule] else ""]
  }

  /** The speech files `create_note` synthesises for a card, in order. */
  function NoteAudio(m: Mode, f: Record, index: nat): (a: seq<Audio>)
    requires HasKeys(m, f)
    ensures m == Lexicon ==> |a| <= |AudioKeys| && forall k :: 0 <= k < |a| ==> a[k].text != ""
    ensures m != Lexicon ==> |a| == 1
  {
    match m
    case Lexicon => LexiconAudioSpoken(f, index, |AudioKeys|); LexiconAudio(f, index, |AudioKeys|)
    case Pronunciation => [Audio(PronunciationSoundName(f[Word], index), f[Word])]
    case Grammar => [Audio(GrammarSoundName(index), f[Back])]
  }

  /** The note, speech files and media names of a lexicon card, unfolded. */
  lemma LexiconNote(f: Record, lang: string, index: nat, images: seq<string>)
    requires HasKeys(Lexicon, f)
    ensures NoteFields(Lexicon, f, lang, index, images)
      == [f[BaseS]] + Pairs(f, lang, index, |AudioKeys|) + PadTo2(ImageRefs(images))
    ensures NoteAudio(Lexicon, f, index) == LexiconAudio(f, index, |AudioKeys|)
    ensures NoteMedia(Lexicon, f, index, images) == Names(LexiconAudio(f, index, |AudioKeys|)) + images
  {
  }

  /** The file names of a list of speech files. */
  function Names(audio: seq<Audio>): (names: seq<string>)
    ensures |names| == |audio|
    ensures forall k :: 0 <= k < |audio| ==> names[k] == audio[k].name
  {
    seq(|audio|, k requires 0 <= k < |audio| => audio[k].name)
  }

  /** The file names `create_note` appends to the media list: the speech files, then (lexicon) the images. */
  function NoteMedia(m: Mode, f: Record, index: nat, images: seq<string>): (media: seq<string>)
    requires HasKeys(m, f)
    ensures |media| == |NoteAudio(m, f, index)| + (if m == Lexicon then |images| else 0)
    ensures forall k :: 0 <= k < |NoteAudio(m, f, index)| ==> media[k] == NoteAudio(m, f, index)[k].name
    ensures m == Lexicon ==> media[|NoteAudio(m, f, index)|..] == images
  {
    Names(NoteAudio(m, f, index)) + (if m == Lexicon then images else [])
  }

  /** The positions of a note type's fields that hold media references. */
  function MediaSlots(m: Mode): seq<nat> {
    match m
    case Lexicon => [2, 4, 6, 8, 9, 10]
    case Pronunciation => [1]
    case Grammar => [2]
  }

  /** The contents of the given positions of a field list, skipping positions past its end. */
  function SlotContents(fields: seq<string>, slots: seq<nat>): seq<string> {
    if slots == [] then []
    else (if slots[0] < |fields| then [fields[slots[0]]] else []) + SlotContents(fields, slots[1..])
  }

  /** The files referred to by a list of slot contents, in order. */
  function Targets(slots: seq<string>): seq<string> {
    if slots == [] then []
    else
      var rest := Targets(slots[1..]);
      match RefTarget(slots[0])
      case Some(name) => [name] + rest
      case None => rest
  }

  /** The media files a note refers to, slot by slot. */
  function References(note: Note): seq<string> {
    Targets(SlotContents(note.fields, MediaSlots(note.model)))
  }

  /** A note whose field list has exactly the fields its note type declares. */
  predicate WellFormed(note: Note) {
    |note.fields| == |DeclaredFields(note.model)|
  }

  // ---------------------------------------------------------------------
  // Properties

  /** The i-th pair sits at positions 2i and 2i + 1 of the pairs list. */
  lemma {:induction false} PairsAt(f: Record, lang: string, index: nat, n: nat)
    requires HasKeys(Lexicon, f) && n <= |AudioKeys|
    ensures forall i :: 0 <= i < n ==>
      Pairs(f, lang, index, n)[2 * i] == Pair(f, lang, index, i)[0] &&
      Pairs(f, lang, index, n)[2 * i + 1] == Pair(f, lang, index, i)[1]
  {
    if n > 0 {
      PairsAt(f, lang, index, n - 1);
    }
  }

  /**
   * The lexicon note slot by slot: `baseS` first; for each spoken field the
   * shown text then its sound reference, both empty when the field is; the
   * text shown for `fullT` is its coloured form; then the image references,
   * padded with empty slots.
   */
  lemma LexiconLayout(f: Record, lang: string, index: nat, images: seq<string>)
    requires HasKeys(Lexicon, f) && |images| <= 2
    ensures var fs := NoteFields(Lexicon, f, lang, index, images);
      |fs| == 11 && fs[0] == f[BaseS] &&
      (forall i :: 0 <= i < |AudioKeys| ==>
        fs[1 + 2 * i] == (if Spoken(f, i) == "" then "" else ShownText(f, lang, i)) &&
        fs[2 + 2 * i] == (if Spoken(f, i) == "" then "" else SoundRef(LexiconSoundName(index, i)))) &&
      fs[3] == ColorGender(f[FullT], lang) &&
      fs[9] == (if |images| > 0 then ImageRef(images[0]) else "") &&
      fs[10] == (if |images| > 1 then ImageRef(images[1]) else "")
  {
    var fs := NoteFields(Lexicon, f, lang, index, images);
    var ps := Pairs(f, lang, index, |AudioKeys|);
    var im := PadTo2(ImageRefs(images));
    assert fs == [f[BaseS]] + ps + im;
    PairsAt(f, lang, index, |AudioKeys|);
    forall i | 0 <= i < |AudioKeys|
      ensures fs[1 + 2 * i] == ps[2 * i] && fs[2 + 2 * i] == ps[2 * i + 1]
    {
    }
    assert fs[3] == Pair(f, lang, index, 1)[0];
    assert fs[9] == im[0] && fs[10] == im[1];
  }

  /** The four speech file names of one lexicon note differ from each other. */
  lemma LexiconSoundNameInjective(index: nat, i: nat, j: nat)
    requires i < 10 && j < 10 && LexiconSoundName(index, i) == LexiconSoundName(index, j)
    ensures i == j
  {
    var prefix := "sound" + NatToString(index) + "_";
    assert LexiconSoundName(index, i)[|prefix|] == DigitChar(i);
    assert LexiconSoundName(index, j)[|prefix|] == DigitChar(j);
  }

  /** The i-th spoken field has a speech file in the first n exactly when i < n and it is not empty. */
  lemma {:induction false} LexiconAudioNames(f: Record, index: nat, n: nat, i: nat)
    requires HasKeys(Lexicon, f) && n <= |AudioKeys| && i < |AudioKeys|
    ensures LexiconSoundName(index, i) in Names(LexiconAudio(f, index, n))
      <==> i < n && Spoken(f, i) != ""
  {
    if n > 0 {
      LexiconAudioNames(f, index, n - 1, i);
      var init := LexiconAudio(f, index, n - 1);
      var last := SpokenField(f, index, n - 1);
      NamesAppend(init, last);
      var name := LexiconSoundName(index, i);
      assert name in Names(init + last) <==> name in Names(init) || name in Names(last);
      if Spoken(f, n - 1) == "" {
        assert Names(last) == [];
      } else {
        assert Names(last) == [LexiconSoundName(index, n - 1)];
        if name == LexiconSoundName(index, n - 1) {
          LexiconSoundNameInjective(index, i, n - 1);
        }
      }
    }
  }

  /**
   * An empty spoken field contributes no speech file, a non-empty one
   * exactly one, named after the note's counter and the field's position,
   * and `fullT` is spoken as entered, before it is coloured.
   */
  lemma LexiconSpeech(f: Record, index: nat, i: nat)
    requires HasKeys(Lexicon, f) && i < |AudioKeys|
    ensures LexiconSoundName(index, i) in NoteMedia(Lexicon, f, index, [])
      <==> Spoken(f, i) != ""
    ensures f[FullT] != "" ==>
      Audio(LexiconSoundName(index, 1), f[FullT]) in NoteAudio(Lexicon, f, index)
  {
    LexiconAudioNames(f, index, |AudioKeys|, i);
    assert NoteMedia(Lexicon, f, index, []) == Names(LexiconAudio(f, index, |AudioKeys|));
    if f[FullT] != "" {
      var a := Audio(LexiconSoundName(index, 1), f[FullT]);
      assert a in LexiconAudio(f, index, 2);
      assert LexiconAudio(f, index, 3) == LexiconAudio(f, index, 2) + SpokenField(f, index, 2);
      assert a in LexiconAudio(f, index, 3);
      assert LexiconAudio(f, index, 4) == LexiconAudio(f, index, 3) + SpokenField(f, index, 3);
    }
  }

  lemma NamesAppend(a: seq<Audio>, b: seq<Audio>)
    ensures Names(a + b) == Names(a) + Names(b)
  {
  }

  lemma {:induction false} TargetsAppend(a: seq<string>, b: seq<string>)
    ensures Targets(a + b) == Targets(a) + Targets(b)
  {
    if a != [] {
      assert (a + b)[0] == a[0] && (a + b)[1..] == a[1..] + b;
      TargetsAppend(a[1..], b);
    } else {
      assert a + b == b;
    }
  }

  /** Image references point back at their files. */
  lemma {:induction false} TargetsImageRefs(names: seq<string>)
    ensures Targets(ImageRefs(names)) == names
  {
    if names != [] {
      RefTargets(names[0]);
      assert ImageRefs(names)[1..] == ImageRefs(names[1..]);
      TargetsImageRefs(names[1..]);
    }
  }

  lemma TargetsOne(x: string)
    ensures Targets([x]) == if RefTarget(x).Some? then [RefTarget(x).value] else []
  {
    assert [x][1..] == [];
  }

  /** The sound slot of the i-th pair refers to the i-th speech file, if any. */
  lemma PairTarget(f: Record, lang: string, index: nat, i: nat)
    requires HasKeys(Lexicon, f) && i < |AudioKeys|
    ensures Targets([Pair(f, lang, index, i)[1]]) == Names(SpokenField(f, index, i))
  {
    TargetsOne(Pair(f, lang, index, i)[1]);
    RefTargets(LexiconSoundName(index, i));
  }

  lemma SlotContentsInRange(fields: seq<string>, slots: seq<nat>)
    requires forall k :: 0 <= k < |slots| ==> slots[k] < |fields|
    ensures |SlotContents(fields, slots)| == |slots|
    ensures forall k :: 0 <= k < |slots| ==> SlotContents(fields, slots)[k] == fields[slots[k]]
  {
    if slots != [] {
      SlotContentsInRange(fields, slots[1..]);
    }
  }

  /** The media slots of a lexicon note: the four sound slots, then the two image slots. */
  lemma LexiconSlotContents(f: Record, lang: string, index: nat, images: seq<string>)
    requires HasKeys(Lexicon, f) && |images| <= 2
    ensures SlotContents(NoteFields(Lexicon, f, lang, index, images), MediaSlots(Lexicon))
      == [Pair(f, lang, index, 0)[1], Pair(f, lang, index, 1)[1], Pair(f, lang, index, 2)[1],
          Pair(f, lang, index, 3)[1]] + PadTo2(ImageRefs(images))
  {
    var fs := NoteFields(Lexicon, f, lang, index, images);
    var im := PadTo2(ImageRefs(images));
    LexiconSlots(f, lang, index, images);
    SixSlots(fs, Pair(f, lang, index, 0)[1], Pair(f, lang, index, 1)[1], Pair(f, lang, index, 2)[1],
      Pair(f, lang, index, 3)[1], im);
  }

  lemma SixSlots(fs: seq<string>, a: string, b: string, c: string, d: string, im: seq<string>)
    requires |fs| == 11 && |im| == 2
    requires fs[2] == a && fs[4] == b && fs[6] == c && fs[8] == d && fs[9] == im[0] && fs[10] == im[1]
    ensures SlotContents(fs, MediaSlots(Lexicon)) == [a, b, c, d] + im
  {
    var slots := MediaSlots(Lexicon);
    SlotContentsInRange(fs, slots);
    var sc := SlotContents(fs, slots);
    var t := [a, b, c, d] + im;
    forall k | 0 <= k < 6 ensures sc[k] == t[k] {
      assert sc[k] == fs[slots[k]];
    }
  }

  /** Positions 2, 4, 6 and 8 of a lexicon note hold the sound references, 9 and 10 the image slots. */
  lemma LexiconSlots(f: Record, lang: string, index: nat, images: seq<string>)
    requires HasKeys(Lexicon, f) && |images| <= 2
    ensures var fs := NoteFields(Lexicon, f, lang, index, images);
      |fs| == 11 &&
      fs[2] == Pair(f, lang, index, 0)[1] && fs[4] == Pair(f, lang, index, 1)[1] &&
      fs[6] == Pair(f, lang, index, 2)[1] && fs[8] == Pair(f, lang, index, 3)[1] &&
      fs[9] == PadTo2(ImageRefs(images))[0] && fs[10] == PadTo2(ImageRefs(images))[1]
  {
    var ps := Pairs(f, lang, index, |AudioKeys|);
    var im := PadTo2(ImageRefs(images));
    LexiconNote(f, lang, index, images);
    PairsAt(f, lang, index, |AudioKeys|);
    var fs := [f[BaseS]] + ps + im;
    assert fs[9] == im[0] && fs[10] == im[1];
    assert fs[2] == ps[1] && fs[4] == ps[3] && fs[6] == ps[5] && fs[8] == ps[7];
  }

  /** The four sound slots refer to the note's speech files, in order. */
  lemma SoundSlotTargets(f: Record, lang: string, index: nat)
    requires HasKeys(Lexicon, f)
    ensures Targets([Pair(f, lang, index, 0)[1], Pair(f, lang, index, 1)[1],
      Pair(f, lang, index, 2)[1], Pair(f, lang, index, 3)[1]])
      == Names(LexiconAudio(f, index, |AudioKeys|))
  {
    var p0, p1, p2, p3 := Pair(f, lang, index, 0)[1], Pair(f, lang, index, 1)[1],
      Pair(f, lang, index, 2)[1], Pair(f, lang, index, 3)[1];
    assert [p0, p1, p2, p3] == [p0] + [p1] + [p2] + [p3];
    TargetsAppend([p0] + [p1] + [p2], [p3]);
    TargetsAppend([p0] + [p1], [p2]);
    TargetsAppend([p0], [p1]);
    PairTarget(f, lang, index, 0);
    PairTarget(f, lang, index, 1);
    PairTarget(f, lang, index, 2);
    PairTarget(f, lang, index, 3);
    var a0, a1, a2, a3 := SpokenField(f, index, 0), SpokenField(f, index, 1),
      SpokenField(f, index, 2), SpokenField(f, index, 3);
    assert LexiconAudio(f, index, 1) == [] + a0 == a0;
    assert LexiconAudio(f, index, 2) == a0 + a1;
    assert LexiconAudio(f, index, 3) == a0 + a1 + a2;
    assert LexiconAudio(f, index, |AudioKeys|) == a0 + a1 + a2 + a3;
    NamesAppend(a0 + a1 + a2, a3);
    NamesAppend(a0 + a1, a2);
    NamesAppend(a0, a1);
  }

  /** The two image slots refer to the pending image files, in order; padding refers to nothing. */
  lemma ImageSlotTargets(images: seq<string>)
    requires |images| <= 2
    ensures Targets(PadTo2(ImageRefs(images))) == images
  {
    var pad := seq(2 - |images|, _ => "");
    assert PadTo2(ImageRefs(images)) == ImageRefs(images) + pad;
    TargetsAppend(ImageRefs(images), pad);
    TargetsImageRefs(images);
    RefTargets("");
    TargetsOne("");
    if |pad| == 2 {
      assert pad == [""] + [""];
      TargetsAppend([""], [""]);
    } else if |pad| == 1 {
      assert pad == [""];
    } else {
      assert pad == [];
    }
  }

  lemma LexiconReferences(f: Record, lang: string, index: nat, images: seq<string>)
    requires HasKeys(Lexicon, f) && |images| <= 2
    ensures References(Note(Lexicon, NoteFields(Lexicon, f, lang, index, images)))
      == NoteMedia(Lexicon, f, index, images)
  {
    var sounds := [Pair(f, lang, index, 0)[1], Pair(f, lang, index, 1)[1],
      Pair(f, lang, index, 2)[1], Pair(f, lang, index, 3)[1]];
    LexiconSlotContents(f, lang, index, images);
    TargetsAppend(sounds, PadTo2(ImageRefs(images)));
    SoundSlotTargets(f, lang, index);
    ImageSlotTargets(images);
  }

  /**
   * Every media file a note's media slots refer to is one `create_note`
   * appends to the media list in the same call, and conversely, slot by slot
   * in the same order; this holds whenever the lexicon card has at most two
   * image files.
   */
  lemma NoteReferencesMedia(m: Mode, f: Record, lang: string, index: nat, images: seq<string>)
    requires HasKeys(m, f) && (m == Lexicon ==> |images| <= 2)
    ensures References(Note(m, NoteFields(m, f, lang, index, images)))
      == NoteMedia(m, f, index, images)
  {
    match m
    case Lexicon =>
      LexiconReferences(f, lang, index, images);
    case Pronunciation =>
      var name := PronunciationSoundName(f[Word], index);
      var fs := NoteFields(m, f, lang, index, images);
      assert SlotContents(fs, [1]) == [SoundRef(name)];
      TargetsOne(SoundRef(name));
      RefTargets(name);
    case Grammar =>
      var name := GrammarSoundName(index);
      var fs := NoteFields(m, f, lang, index, images);
      assert SlotContents(fs, [2]) == [SoundRef(name)];
      TargetsOne(SoundRef(name));
      RefTargets(name);
  }
}
