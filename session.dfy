/**
 * The session state `create_note` and the image picker work on: the deck,
 * the media list, the note counter and the two pending-image lists. Speech
 * synthesis and image saving are modelled by the file they leave behind.
 */
module Sessions {
  import opened Text
  import opened Gender
  import opened Cards
  import opened Notes

  /** What a saved media file holds: synthesised speech of a text, or an image downloaded from a URL. */
  datatype MediaFile = Speech(text: string, lang: string) | Picture(url: string)

  /** The files on disk after the speech files of `audio` have been saved, in order. */
  function Store(files: map<string, MediaFile>, audio: seq<Audio>, lang: string): map<string, MediaFile>
    decreases |audio|
  {
    if audio == [] then files
    else
      var last := audio[|audio| - 1];
      Store(files, audio[..|audio| - 1], lang)[last.name := Speech(last.text, lang)]
  }

  /** The files on disk after the downloaded images have been saved as `image{index}_{i}.png`. */
  function StorePictures(files: map<string, MediaFile>, index: nat, urls: seq<string>): map<string, MediaFile>
    decreases |urls|
  {
    if urls == [] then files
    else StorePictures(files, index, urls[..|urls| - 1])[ImageName(index, |urls| - 1) := Picture(urls[|urls| - 1])]
  }

  /** `image{index}_0.png`, `image{index}_1.png`, ...: the names of the first n saved images. */
  function ImageNames(index: nat, n: nat): (names: seq<string>)
    ensures |names| == n
    ensures forall i :: 0 <= i < n ==> names[i] == ImageName(index, i)
  {
    seq(n, i requires 0 <= i => ImageName(index, i))
  }

  /** `load_images(urls)`: the URLs whose download succeeded, in order; `ok[k]` is the outcome of the k-th. */
  function Fetched(urls: seq<string>, ok: seq<bool>): (got: seq<string>)
    requires |ok| == |urls|
    ensures |got| <= |urls|
    ensures forall u :: u in got ==> u in urls
    decreases |urls|
  {
    if urls == [] then []
    else
      var init := Fetched(urls[..|urls| - 1], ok[..|ok| - 1]);
      if ok[|ok| - 1] then init + [urls[|urls| - 1]] else init
  }

  /** `url_list[-2:]`: the last two entries, or the whole list when it is shorter. */
  function LastTwo(s: seq<string>): (r: seq<string>)
    ensures |r| == if |s| < 2 then |s| else 2
    ensures r == s[|s| - |r|..]
  {
    if |s| <= 2 then s else s[|s| - 2..]
  }

  /** The deck id and name for a note type and language; an unknown language gets the German deck. */
  function DeckInfo(mode: Mode, lang: string): (deck: (int, string))
    ensures deck.0 > 0 && deck.1 != ""
    ensures mode == Lexicon ==> 87654321 <= deck.0 <= 87654323
    ensures mode == Pronunciation ==> 100234568 <= deck.0 <= 100234570
    ensures mode == Grammar ==> 1234567 <= deck.0 <= 1234569
  {
    match mode
    case Lexicon =>
      if lang == "es" then (87654322, "Espanol")
      else if lang == "fr" then (87654323, "Francais")
      else (87654321, "Deutsch")
    case Pronunciation =>
      if lang == "es" then (100234569, "EspanolPronunciacion")
      else if lang == "fr" then (100234570, "FrancaisPrononciation")
      else (100234568, "DeutschAussprache")
    case Grammar =>
      if lang == "es" then (1234568, "Grammar_Espanol")
      else if lang == "fr" then (1234569, "Grammar_Francais")
      else (1234567, "Grammar_Deutsch")
  }

  /** The pending list after clicks on `clicks`, in order, each handled as `SelectImage` does. */
  function Selections(pending: seq<string>, clicks: seq<string>): seq<string>
    decreases |clicks|
  {
    if clicks == [] then pending
    else LastTwo(Selections(pending, clicks[..|clicks| - 1]) + [clicks[|clicks| - 1]])
  }

  /** Truncating after every click is truncating once: what is left is the last two of all the URLs. */
  lemma LastTwoAppend(s: seq<string>, url: string)
    ensures LastTwo(LastTwo(s) + [url]) == LastTwo(s + [url])
  {
    if |s| > 2 {
      assert LastTwo(s) + [url] == (s + [url])[|s| - 2..];
      assert (s + [url])[|s| - 2..][1..] == (s + [url])[|s| - 1..];
    }
  }

  /**
   * After any number of clicks the pending list is the last two of the
   * earlier pending URLs followed by the clicked ones: at most two entries,
   * the most recent clicks, in the order they were made.
   */
  lemma {:induction false} SelectionsKeepLastTwo(pending: seq<string>, clicks: seq<string>)
    requires |pending| <= 2
    ensures Selections(pending, clicks) == LastTwo(pending + clicks)
    decreases |clicks|
  {
    if clicks == [] {
      assert pending + clicks == pending;
    } else {
      var init := clicks[..|clicks| - 1];
      var url := clicks[|clicks| - 1];
      SelectionsKeepLastTwo(pending, init);
      LastTwoAppend(pending + init, url);
      assert pending + init + [url] == pending + clicks;
    }
  }

  /**
   * Each supported note type and language has its own deck id, and a
   * language the table does not list falls back to the table's first
   * entry, the German deck.
   */
  lemma DeckIdsDistinct(m1: Mode, lang1: string, m2: Mode, lang2: string)
    requires Supported(lang1) && Supported(lang2)
    ensures DeckInfo(m1, lang1).0 == DeckInfo(m2, lang2).0 <==> m1 == m2 && lang1 == lang2
  {
  }

  lemma DeckFallback(m: Mode, lang: string)
    requires !Supported(lang)
    ensures DeckInfo(m, lang) == DeckInfo(m, "de")
  {
  }

  /** The languages the deck table lists. */
  predicate Supported(lang: string) {
    lang == "de" || lang == "es" || lang == "fr"
  }

  /**
   * The session invariant: the counter counts the notes; at most two images
   * are pending; every media file and pending image file exists; every note
   * has the fields its type declares, and every file its media slots refer
   * to is on the media list packed with the deck.
   */
  ghost predicate Consistent(index: nat, deck: seq<Note>, allMedia: seq<string>, imageFilename: seq<string>,
                             imageUrlsToAdd: seq<string>, files: map<string, MediaFile>)
  {
    index == |deck| &&
    |imageFilename| <= 2 && |imageUrlsToAdd| <= 2 &&
    (forall n :: n in allMedia ==> n in files) &&
    (forall n :: n in imageFilename ==> n in files) &&
    (forall k :: 0 <= k < |deck| ==> WellFormed(deck[k])) &&
    (forall k, n :: 0 <= k < |deck| && n in References(deck[k]) ==> n in allMedia)
  }

  /**
   * Writing a note keeps the invariant: the new note is well formed, the
   * files it refers to are the media names listed with it, and those files
   * exist; a lexicon note also clears the pending images.
   */
  lemma AddNoteKeepsConsistent(mode: Mode, fields: Record, lang: string, index: nat, deck: seq<Note>,
                               allMedia: seq<string>, imageFilename: seq<string>, imageUrlsToAdd: seq<string>,
                               files: map<string, MediaFile>)
    requires Consistent(index, deck, allMedia, imageFilename, imageUrlsToAdd, files) && HasKeys(mode, fields)
    ensures Consistent(index + 1,
      deck + [Note(mode, NoteFields(mode, fields, lang, index, imageFilename))],
      allMedia + NoteMedia(mode, fields, index, imageFilename),
      if mode == Lexicon then [] else imageFilename,
      if mode == Lexicon then [] else imageUrlsToAdd,
      Store(files, NoteAudio(mode, fields, index), lang))
  {
    var note := Note(mode, NoteFields(mode, fields, lang, index, imageFilename));
    var audio := NoteAudio(mode, fields, index);
    NoteReferencesMedia(mode, fields, lang, index, imageFilename);
    StoreKeys(files, audio, lang);
    if mode == Lexicon {
      ConsistentStep(index, deck, allMedia, imageFilename, imageUrlsToAdd, files,
        note, NoteMedia(mode, fields, index, imageFilename), [], [], Store(files, audio, lang));
    } else {
      ConsistentStep(index, deck, allMedia, imageFilename, imageUrlsToAdd, files,
        note, NoteMedia(mode, fields, index, imageFilename), imageFilename, imageUrlsToAdd, Store(files, audio, lang));
    }
  }

  /**
   * The invariant survives appending a well-formed note whose references are
   * the media names listed with it, when every listed name and every old
   * file is still a file afterwards and the pending images are kept or cleared.
   */
  lemma ConsistentStep(index: nat, deck: seq<Note>, allMedia: seq<string>, imageFilename: seq<string>,
                       imageUrlsToAdd: seq<string>, files: map<string, MediaFile>,
                       note: Note, media: seq<string>, imageFilename': seq<string>, imageUrlsToAdd': seq<string>,
                       files': map<string, MediaFile>)
    requires Consistent(index, deck, allMedia, imageFilename, imageUrlsToAdd, files)
    requires WellFormed(note) && References(note) == media
    requires forall n :: n in files ==> n in files'
    requires forall n :: n in media ==> n in files'
    requires (imageFilename' == [] && imageUrlsToAdd' == []) ||
             (imageFilename' == imageFilename && imageUrlsToAdd' == imageUrlsToAdd)
    ensures Consistent(index + 1, deck + [note], allMedia + media, imageFilename', imageUrlsToAdd', files')
  {
    var deck' := deck + [note];
    forall k, n | 0 <= k < |deck'| && n in References(deck'[k]) ensures n in allMedia + media {
      if k < |deck| {
        assert deck'[k] == deck[k];
      }
    }
  }

  /**
   * Adding images keeps the invariant: the images obtained, at most as many
   * as the pending URLs, become the pending image files, and those files
   * exist beside every earlier one.
   */
  lemma PicturesKeepConsistent(index: nat, deck: seq<Note>, allMedia: seq<string>, imageFilename: seq<string>,
                               imageUrlsToAdd: seq<string>, files: map<string, MediaFile>, ok: seq<bool>)
    requires Consistent(index, deck, allMedia, imageFilename, imageUrlsToAdd, files) && |ok| == |imageUrlsToAdd|
    ensures var images := Fetched(imageUrlsToAdd, ok);
      Consistent(index, deck, allMedia, ImageNames(index, |images|), imageUrlsToAdd,
        StorePictures(files, index, images))
  {
    StorePicturesKeys(files, index, Fetched(imageUrlsToAdd, ok));
  }

  /** The session state of the card writer. */
  class Session {
    var deckId: int
    var deckName: string
    var deck: seq<Note>
    var allMedia: seq<string>
    var index: nat
    var imageFilename: seq<string>
    var imageUrlsToAdd: seq<string>
    var files: map<string, MediaFile>

    /** The session invariant, `Consistent`, on the current state. */
    ghost predicate Valid()
      reads this
    {
      Consistent(index, deck, allMedia, imageFilename, imageUrlsToAdd, files)
    }

    /** A fresh session: an empty deck named after the note type and language, nothing pending. */
    constructor (mode: Mode, lang: string)
      ensures Valid()
      ensures (deckId, deckName) == DeckInfo(mode, lang)
      ensures deck == [] && allMedia == [] && index == 0
      ensures imageFilename == [] && imageUrlsToAdd == [] && files == map[]
    {
      var info := DeckInfo(mode, lang);
      deckId, deckName := info.0, info.1;
      deck, allMedia, index := [], [], 0;
      imageFilename, imageUrlsToAdd := [], [];
      files := map[];
    }

    /**
     * `create_note(fields, selected_language, mode)`: synthesises the
     * note's speech files, appends them (and, for a lexicon card, the
     * pending images) to the media list, adds one note to the deck, counts
     * it, and clears the pending images of a lexicon card. `edited` is the
     * card as the caller sees it afterwards: its `fullT` is overwritten by
     * its coloured form.
     */
    method CreateNote(fields: Record, lang: string, mode: Mode) returns (edited: Record)
      requires Valid() && HasKeys(mode, fields)
      modifies this`deck, this`index, this`allMedia, this`files, this`imageFilename, this`imageUrlsToAdd
      ensures Valid()
      ensures deck == old(deck) + [Note(mode, NoteFields(mode, fields, lang, old(index), old(imageFilename)))]
      ensures allMedia == old(allMedia) + NoteMedia(mode, fields, old(index), old(imageFilename))
      ensures files == Store(old(files), NoteAudio(mode, fields, old(index)), lang)
      ensures index == old(index) + 1
      ensures mode == Lexicon ==> imageFilename == [] && imageUrlsToAdd == []
      ensures mode != Lexicon ==> imageFilename == old(imageFilename) && imageUrlsToAdd == old(imageUrlsToAdd)
      ensures deckId == old(deckId) && deckName == old(deckName)
      ensures edited == if mode == Lexicon then fields[FullT := ColorGender(fields[FullT], lang)] else fields
    {
      var fieldsNote;
      fieldsNote, edited := WriteNote(fields, lang, mode);
      AddNoteKeepsConsistent(mode, fields, lang, index, deck, old(allMedia), imageFilename, imageUrlsToAdd, old(files));
      AddNote(Note(mode, fieldsNote), mode == Lexicon);
    }

    /**
     * The end of `create_note`: the note joins the deck, the counter moves
     * on, and a lexicon note clears the pending images.
     */
    method AddNote(note: Note, clear: bool)
      requires Consistent(index + 1, deck + [note], allMedia,
        if clear then [] else imageFilename, if clear then [] else imageUrlsToAdd, files)
      modifies this`deck, this`index, this`imageFilename, this`imageUrlsToAdd
      ensures Valid()
      ensures deck == old(deck) + [note] && index == old(index) + 1
      ensures clear ==> imageFilename == [] && imageUrlsToAdd == []
      ensures !clear ==> imageFilename == old(imageFilename) && imageUrlsToAdd == old(imageUrlsToAdd)
    {
      deck := deck + [note];
      index := index + 1;
      if clear {
        imageFilename := [];
        imageUrlsToAdd := [];
      }
    }

    /** The branch of `create_note` the note type selects: the note's fields, its speech files and media names. */
    method WriteNote(fields: Record, lang: string, mode: Mode) returns (fieldsNote: seq<string>, edited: Record)
      requires HasKeys(mode, fields)
      modifies this`allMedia, this`files
      ensures fieldsNote == NoteFields(mode, fields, lang, index, imageFilename)
      ensures allMedia == old(allMedia) + NoteMedia(mode, fields, index, imageFilename)
      ensures files == Store(old(files), NoteAudio(mode, fields, index), lang)
      ensures edited == if mode == Lexicon then fields[FullT := ColorGender(fields[FullT], lang)] else fields
    {
      match mode {
        case Lexicon =>
          fieldsNote, edited := WriteLexicon(fields, lang);
        case Pronunciation =>
          fieldsNote := WritePronunciation(fields, lang);
          edited := fields;
        case Grammar =>
          fieldsNote := WriteGrammar(fields, lang);
          edited := fields;
      }
    }

    /**
     * The lexicon branch: `baseS`, then for each spoken field its text and
     * sound reference (speech saved and listed first, `fullT` coloured
     * after), then the two image slots; the pending image files join the
     * media list.
     */
    method WriteLexicon(fields: Record, lang: string) returns (fieldsNote: seq<string>, edited: Record)
      requires HasKeys(Lexicon, fields)
      modifies this`allMedia, this`files
      ensures fieldsNote == NoteFields(Lexicon, fields, lang, index, imageFilename)
      ensures allMedia == old(allMedia) + NoteMedia(Lexicon, fields, index, imageFilename)
      ensures files == Store(old(files), NoteAudio(Lexicon, fields, index), lang)
      ensures edited == Recoloured(fields, lang, |AudioKeys|)
    {
      LexiconNote(fields, lang, index, imageFilename);
      var pairs;
      pairs, edited := SpeakFields(fields, lang);
      fieldsNote := [fields[BaseS]] + pairs;
      var images := ImageSlots(imageFilename);
      fieldsNote := fieldsNote + images;
      ghost var spoken := Names(LexiconAudio(fields, index, |AudioKeys|));
      AppendAssoc(old(allMedia), spoken, imageFilename);
      ListImages();
    }

    /** `for img_name in image_filename: all_media.append(img_name)`. */
    method ListImages()
      modifies this`allMedia
      ensures allMedia == old(allMedia) + imageFilename
    {
      for j := 0 to |imageFilename|
        invariant allMedia == old(allMedia) + imageFilename[..j]
      {
        allMedia := allMedia + [imageFilename[j]];
      }
      assert imageFilename[..|imageFilename|] == imageFilename;
    }

    /**
     * The loop over `baseT`, `fullT`, `s1T`, `s2T`: an empty field gives an
     * empty pair; otherwise its speech is saved and listed, `fullT` is then
     * coloured in the card, and the pair is the shown text and the sound
     * reference.
     */
    method SpeakFields(fields: Record, lang: string) returns (pairs: seq<string>, edited: Record)
      requires HasKeys(Lexicon, fields)
      modifies this`allMedia, this`files
      ensures pairs == Pairs(fields, lang, index, |AudioKeys|)
      ensures allMedia == old(allMedia) + Names(LexiconAudio(fields, index, |AudioKeys|))
      ensures files == Store(old(files), LexiconAudio(fields, index, |AudioKeys|), lang)
      ensures edited == Recoloured(fields, lang, |AudioKeys|)
    {
      pairs := [];
      edited := fields;
      for i := 0 to |AudioKeys|
        invariant pairs == Pairs(fields, lang, index, i)
        invariant allMedia == old(allMedia) + Names(LexiconAudio(fields, index, i))
        invariant files == Store(old(files), LexiconAudio(fields, index, i), lang)
        invariant edited == Recoloured(fields, lang, i)
      {
        ghost var media, store := allMedia, files;
        var pair;
        pair, edited := SpeakField(fields, lang, i, edited);
        SpeakStep(fields, lang, index, i, old(allMedia), old(files), pairs, media, store, pair, allMedia, files);
        pairs := pairs + pair;
      }
    }

    /**
     * One turn of the loop: an empty field gives an empty pair; otherwise
     * its speech is saved and listed, `fullT` is then coloured in the card,
     * and the pair is the shown text and the sound reference.
     */
    method SpeakField(fields: Record, lang: string, i: nat, edited: Record) returns (pair: seq<string>, edited': Record)
      requires HasKeys(Lexicon, fields) && i < |AudioKeys| && edited == Recoloured(fields, lang, i)
      modifies this`allMedia, this`files
      ensures pair == Pair(fields, lang, index, i)
      ensures edited' == Recoloured(fields, lang, i + 1)
      ensures Spoken(fields, i) == "" ==> allMedia == old(allMedia) && files == old(files)
      ensures Spoken(fields, i) != "" ==>
        allMedia == old(allMedia) + [LexiconSoundName(index, i)] &&
        files == old(files)[LexiconSoundName(index, i) := Speech(Spoken(fields, i), lang)]
    {
      var key := AudioKeys[i];
      RecolouredStep(fields, lang, i);
      edited' := edited;
      if edited[key] == "" {
        pair := [edited[key], ""];
        return;
      }
      var name := LexiconSoundName(index, i);
      // gTTS(text=..., lang=...).save(name)
      files := files[name := Speech(edited[key], lang)];
      allMedia := allMedia + [name];
      if key == FullT {
        edited' := edited[FullT := ColorGender(edited[FullT], lang)];
      }
      pair := [edited'[key], SoundRef(name)];
    }

    /** The pronunciation branch: the word and its sound reference. */
    method WritePronunciation(fields: Record, lang: string) returns (fieldsNote: seq<string>)
      requires HasKeys(Pronunciation, fields)
      modifies this`allMedia, this`files
      ensures fieldsNote == NoteFields(Pronunciation, fields, lang, index, imageFilename)
      ensures allMedia == old(allMedia) + NoteMedia(Pronunciation, fields, index, imageFilename)
      ensures files == Store(old(files), NoteAudio(Pronunciation, fields, index), lang)
    {
      var word := fields[Word];
      var name := PronunciationSoundName(word, index);
      files := files[name := Speech(word, lang)];
      allMedia := allMedia + [name];
      fieldsNote := [word, SoundRef(name)];
    }

    /** The grammar branch: front, back, the sound reference of the spoken back, and the rule. */
    method WriteGrammar(fields: Record, lang: string) returns (fieldsNote: seq<string>)
      requires HasKeys(Grammar, fields)
      modifies this`allMedia, this`files
      ensures fieldsNote == NoteFields(Grammar, fields, lang, index, imageFilename)
      ensures allMedia == old(allMedia) + NoteMedia(Grammar, fields, index, imageFilename)
      ensures files == Store(old(files), NoteAudio(Grammar, fields, index), lang)
    {
      var name := GrammarSoundName(index);
      files := files[name := Speech(fields[Back], lang)];
      allMedia := allMedia + [name];
      fieldsNote := [fields[Front], fields[Back], SoundRef(name), if Rule in fields then fields[Rule] else ""];
    }

    /**
     * A click on an image in the picker: its URL joins the pending list,
     * which then keeps only its last two entries.
     */
    method SelectImage(url: string)
      requires Valid()
      modifies this`imageUrlsToAdd
      ensures Valid()
      ensures imageUrlsToAdd == LastTwo(old(imageUrlsToAdd) + [url])
    {
      imageUrlsToAdd := imageUrlsToAdd + [url];
      imageUrlsToAdd := LastTwo(imageUrlsToAdd);
    }

    /**
     * "Add images": the pending URLs are downloaded (`ok` gives each
     * outcome), and the images obtained are saved as `image{index}_{i}.png`
     * and become the pending image files, replacing the earlier ones.
     */
    method AddImages(ok: seq<bool>)
      requires Valid() && |ok| == |imageUrlsToAdd|
      modifies this`imageFilename, this`files
      ensures Valid()
      ensures imageFilename == ImageNames(index, |Fetched(imageUrlsToAdd, ok)|)
      ensures files == StorePictures(old(files), index, Fetched(imageUrlsToAdd, ok))
    {
      var images := Fetched(imageUrlsToAdd, ok);
      imageFilename := [];
      for i := 0 to |images|
        invariant imageFilename == ImageNames(index, i)
        invariant files == StorePictures(old(files), index, images[..i])
      {
        assert images[..i + 1][..i] == images[..i];
        var name := ImageName(index, i);
        imageFilename := imageFilename + [name];
        files := files[name := Picture(images[i])];
      }
      assert images[..|images|] == images;
      PicturesKeepConsistent(index, deck, allMedia, old(imageFilename), imageUrlsToAdd, old(files), ok);
    }
  }

  /** The two image slots of a lexicon note: one reference per pending image file, padded with "". */
  method ImageSlots(names: seq<string>) returns (images: seq<string>)
    ensures images == PadTo2(ImageRefs(names))
  {
    images := seq(|names|, k requires 0 <= k < |names| => ImageRef(names[k]));
    while |images| < 2
      invariant |names| <= |images| && (|images| == |names| || |images| <= 2)
      invariant images[..|names|] == ImageRefs(names)
      invariant forall k :: |names| <= k < |images| ==> images[k] == ""
      decreases 2 - |images|
    {
      images := images + [""];
    }
  }

  lemma AppendAssoc(a: seq<string>, b: seq<string>, c: seq<string>)
    ensures a + (b + c) == a + b + c
  {
  }

  /** Saving speech files adds exactly their names to the files on disk. */
  lemma {:induction false} StoreKeys(files: map<string, MediaFile>, audio: seq<Audio>, lang: string)
    ensures forall n :: n in Store(files, audio, lang) <==> n in files || n in Names(audio)
    decreases |audio|
  {
    if audio != [] {
      var init := audio[..|audio| - 1];
      StoreKeys(files, init, lang);
      assert audio == init + [audio[|audio| - 1]];
      NamesAppend(init, [audio[|audio| - 1]]);
    }
  }

  /** Saving images adds exactly their names to the files on disk. */
  lemma {:induction false} StorePicturesKeys(files: map<string, MediaFile>, index: nat, urls: seq<string>)
    ensures forall n :: n in StorePictures(files, index, urls) <==> n in files || n in ImageNames(index, |urls|)
    decreases |urls|
  {
    if urls != [] {
      StorePicturesKeys(files, index, urls[..|urls| - 1]);
      assert ImageNames(index, |urls|) == ImageNames(index, |urls| - 1) + [ImageName(index, |urls| - 1)];
    }
  }

  /** The card after the first i spoken fields: `fullT` is recoloured once the loop has passed it. */
  function Recoloured(fields: Record, lang: string, i: nat): Record
    requires FullT in fields
  {
    if i <= 1 then fields else fields[FullT := ColorGender(fields[FullT], lang)]
  }

  /** One turn of the loop over the card: it reads the field as entered, and colours `fullT` if it is not empty. */
  lemma RecolouredStep(fields: Record, lang: string, i: nat)
    requires HasKeys(Lexicon, fields) && i < |AudioKeys|
    ensures var edited := Recoloured(fields, lang, i);
      var key := AudioKeys[i];
      key in edited && edited[key] == fields[key] &&
      (key == FullT && fields[key] != "" ==>
        Recoloured(fields, lang, i + 1) == edited[FullT := ColorGender(edited[FullT], lang)] &&
        ColorGender(edited[FullT], lang) == ShownText(fields, lang, i)) &&
      (key != FullT ==> Recoloured(fields, lang, i + 1) == edited && edited[key] == ShownText(fields, lang, i)) &&
      (fields[key] == "" ==> Recoloured(fields, lang, i + 1) == edited)
  {
    if i == 1 && fields[FullT] == "" {
      assert fields[FullT := ColorGender(fields[FullT], lang)] == fields;
    }
  }

  /** One turn of the spoken-fields loop keeps the loop's account of pairs, media list and files. */
  lemma SpeakStep(fields: Record, lang: string, index: nat, i: nat,
                  media0: seq<string>, files0: map<string, MediaFile>,
                  pairs: seq<string>, media: seq<string>, files: map<string, MediaFile>,
                  pair: seq<string>, media': seq<string>, files': map<string, MediaFile>)
    requires HasKeys(Lexicon, fields) && i < |AudioKeys|
    requires pairs == Pairs(fields, lang, index, i)
    requires media == media0 + Names(LexiconAudio(fields, index, i))
    requires files == Store(files0, LexiconAudio(fields, index, i), lang)
    requires pair == Pair(fields, lang, index, i)
    requires Spoken(fields, i) == "" ==> media' == media && files' == files
    requires Spoken(fields, i) != "" ==>
      media' == media + [LexiconSoundName(index, i)] &&
      files' == files[LexiconSoundName(index, i) := Speech(Spoken(fields, i), lang)]
    ensures pairs + pair == Pairs(fields, lang, index, i + 1)
    ensures media' == media0 + Names(LexiconAudio(fields, index, i + 1))
    ensures files' == Store(files0, LexiconAudio(fields, index, i + 1), lang)
  {
    FilesStep(fields, lang, index, i, files0, files, files');
    MediaStep(fields, index, i, media0, media, media');
  }

  lemma FilesStep(fields: Record, lang: string, index: nat, i: nat,
                  files0: map<string, MediaFile>, files: map<string, MediaFile>, files': map<string, MediaFile>)
    requires HasKeys(Lexicon, fields) && i < |AudioKeys|
    requires files == Store(files0, LexiconAudio(fields, index, i), lang)
    requires Spoken(fields, i) == "" ==> files' == files
    requires Spoken(fields, i) != "" ==>
      files' == files[LexiconSoundName(index, i) := Speech(Spoken(fields, i), lang)]
    ensures files' == Store(files0, LexiconAudio(fields, index, i + 1), lang)
  {
    SpokenStep(fields, index, i);
    if Spoken(fields, i) != "" {
      StoreAppend(files0, LexiconAudio(fields, index, i), Audio(LexiconSoundName(index, i), Spoken(fields, i)), lang);
    }
  }

  lemma MediaStep(fields: Record, index: nat, i: nat, media0: seq<string>, media: seq<string>, media': seq<string>)
    requires HasKeys(Lexicon, fields) && i < |AudioKeys|
    requires media == media0 + Names(LexiconAudio(fields, index, i))
    requires Spoken(fields, i) == "" ==> media' == media
    requires Spoken(fields, i) != "" ==> media' == media + [LexiconSoundName(index, i)]
    ensures media' == media0 + Names(LexiconAudio(fields, index, i + 1))
  {
    SpokenStep(fields, index, i);
    if Spoken(fields, i) != "" {
      var x := Audio(LexiconSoundName(index, i), Spoken(fields, i));
      NamesAppend(LexiconAudio(fields, index, i), [x]);
    }
  }

  /** Saving one more speech file stores it under its name. */
  lemma StoreAppend(files: map<string, MediaFile>, audio: seq<Audio>, x: Audio, lang: string)
    ensures Store(files, audio + [x], lang) == Store(files, audio, lang)[x.name := Speech(x.text, lang)]
  {
    assert (audio + [x])[..|audio|] == audio;
  }

  /** The speech files of the first i + 1 spoken fields: those of the first i, then the i-th's, if any. */
  lemma SpokenStep(fields: Record, index: nat, i: nat)
    requires HasKeys(Lexicon, fields) && i < |AudioKeys|
    ensures Spoken(fields, i) == "" ==> LexiconAudio(fields, index, i + 1) == LexiconAudio(fields, index, i)
    ensures Spoken(fields, i) != "" ==>
      LexiconAudio(fields, index, i + 1)
        == LexiconAudio(fields, index, i) + [Audio(LexiconSoundName(index, i), Spoken(fields, i))]
  {
    assert LexiconAudio(fields, index, i) + [] == LexiconAudio(fields, index, i);
  }
}
