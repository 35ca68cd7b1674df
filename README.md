# Language card generator — a Dafny model of its card-authoring core

The card generator turns pasted text into Anki flash cards. This project models its core, and proves properties of that model:

- **The text-record parser** `create_list_of_cards` (main.py) reads three line grammars:
  - lexicon: seven positional fields separated by `|`;
  - pronunciation: one word per line;
  - grammar: `Front | Back | Rule`, where the rule is optional.

  Blank lines are dropped, and records come out in line order.
- **The gender colouring** `color_gender` (main.py) wraps a German text that starts with `die `, `das ` or `der ` in a coloured `<span>`.
- **The note assembly of `create_note`** (main.py) works on the session state:
  - the deck, a list of notes;
  - the media list `all_media`;
  - the note counter `index`;
  - the pending image files `image_filename` and the pending image URLs `image_urls_to_add`.

  Each call builds the note's field list in its note type's slot order. It saves and lists every speech file it refers to, adds one note, counts it, and clears the pending images after a lexicon note.
- **The pending-image rule** (main.py) appends a clicked image URL to the pending list and keeps only the last two.
- **"Add images"** (main.py) saves the downloaded images as the pending image files.
- **The older draft parser** `create_list_of_cards` (main_LCG.py) has a `return` inside its loop. It is modelled as written, with an `Option` result, and next to a corrected version.

Files:

- `wrappers.dfy` defines `Option`.
- `text.dfy` models the Python string operations the source uses: `strip`, `split`, `splitlines` and `str(n)`.
- `parser.dfy` holds the parser (module `Cards`).
- `gender.dfy` holds `color_gender`.
- `notes.dfy` defines what a note contains, as functions of the card.
- `session.dfy` is the session, a `class` whose methods update its fields in place.
- `draft.dfy` holds the draft parser.

The parser is a spec function `Parse`, plus a method `CreateListOfCards` with the source's three loops. The method is proved equal to `Parse`.

`create_note` is modelled imperatively:

- `Session.CreateNote` updates the fields.
- The lexicon branch builds the field list in a `for` loop over the spoken fields, then pads the image slots in a `while` loop.
- Each method is proved against the note functions of `notes.dfy`.
- It is also proved to keep the session invariant `Consistent`:
  - the counter equals the number of notes;
  - at most two images are pending;
  - every listed media file exists;
  - every note has its type's field count;
  - every file a note's media slots refer to is on the media list.

Modelling conventions:

- Python strings are `seq<char>`.
- Whitespace for `strip` is space, tab and newline, and `splitlines` breaks at `\n` only.
- A parsed card (a `dict`) is a `map<Key, string>` over the eleven field names the grammars use.
- A speech file or image written to disk is an entry in a `files` map from file name to what the file holds.

## Model

| member | source | states |
|---|---|---|
| Text.Strip | main.py:29 | `strip()` is empty exactly when the text is all whitespace, and otherwise starts and ends with a non-space character |
| Text.Split | main.py:32 | defines `str.split(sep)` for a non-empty separator: the text cut at each leftmost, non-overlapping occurrence of the separator; always at least one part (its contract is in SplitJoin, SplitPartsFree and SplitAppend) |
| Text.SplitLines | main.py:29 | defines `str.splitlines()` over `\n`: the empty text has no lines, and a final newline starts no line (its contract is in SplitLinesJoin) |
| Text.SplitJoin | main.py:32 | joining the parts of `split(sep)` with `sep` gives back the text |
| Text.SplitPartsFree | main.py:32 | no part of `split(sep)` contains the separator |
| Text.SplitAppend | main.py:32 | splitting `a + sep + b` on a one-character separator is splitting `a`, then `b` |
| Text.SplitJoinInverse | main.py:52 | values free of pipes joined with a pipe (or a pipe between spaces) split back into the same values |
| Text.SplitLinesJoin | main.py:29 | the lines of a text joined with newlines give back the text up to a final newline, and no line holds a newline |
| Text.FirstLine | main_LCG.py:19 | a text starting with a visible character has a first line, which is a non-blank prefix of it |
| Text.NatToString | main.py:131 | `str(n)` is one or more digits, and one digit exactly when n < 10 |
| Cards.RecordOf | main.py:30-59 | a blank line gives no record; in lexicon and pronunciation mode a line gives a record exactly when it is not blank; in grammar mode exactly when its stripped text has at least two pipe-separated parts |
| Cards.CreateListOfCards | main.py:13-61 | the three loops of the source compute exactly `Parse(src, mode)`; an unknown mode tag gives no cards |
| Cards.Parse | main.py:13-61 | the records of the lines of the stripped text under the tag's grammar; an unknown tag gives no records, and no tag gives more records than the text has non-blank lines |
| Cards.ParseLinesAtMostNonBlank | main.py:26-59 | under every grammar, each non-blank line gives at most one record |
| Cards.LexiconLoop | main.py:26-37 | the lexicon loop appends the record of each non-blank line: its result is the records of all the lines, in order |
| Cards.PronunciationLoop | main.py:39-45 | the pronunciation loop appends `{word: line.strip()}` for each non-blank line, in order |
| Cards.GrammarLoop | main.py:47-59 | the grammar loop appends a record for each non-blank line with at least two pipe-separated parts, in order |
| Cards.ParseLinesAppend | main.py:30-37 | parsing is compositional over lines, so records come out in input-line order |
| Cards.ParseLinesPointwise | main.py:30-59 | the k-th record is the record of the k-th line that yields one |
| Cards.EmittingNonBlank | main.py:30-45 | in lexicon and pronunciation mode, the lines that yield records are exactly the non-blank lines |
| Cards.GrammarEmittingFewer | main.py:50-53 | in grammar mode, at most the non-blank lines yield records |
| Cards.ParseLexicon | main.py:26-37 | one record per non-blank line, in order; each has exactly the seven header keys; the i-th key is bound to the stripped i-th pipe-separated part, or "" when the line has fewer parts |
| Cards.ParsePronunciation | main.py:39-45 | one record per non-blank line, in order, each exactly `{word: line.strip()}` |
| Cards.ParseGrammar | main.py:47-59 | records come from the non-blank lines whose stripped text has at least two pipe-separated parts, in order; Front and Back are the stripped first two parts; Rule is the stripped third part or "" |
| Cards.LexiconRecord | main.py:32-36 | defines the lexicon record of a line: each of the seven header names bound to the stripped pipe-separated part at its position, or "" past the last part (its contract is in LexiconRecordPositional and LexiconRecordFields) |
| Cards.GrammarRecord | main.py:54-58 | defines the grammar record of a stripped line's parts: Front and Back the stripped parts 0 and 1, Rule the stripped part 2 or "" (its contract is in GrammarRecordLookup) |
| Cards.LexiconRecordPositional | main.py:33-36 | the i-th header name maps to the stripped i-th pipe-separated part, or to "" past the last part |
| Cards.LexiconRecordFields | main.py:32-36 | a lexicon record has exactly the seven header keys, bound positionally |
| Cards.LexiconIgnoresExtraParts | main.py:33-36 | parts beyond the seventh do not change a lexicon record |
| Cards.LexiconRoundTrip | main.py:32-36 | seven stripped values free of pipes, written as one line, parse back to exactly those values |
| Cards.GrammarRecordLookup | main.py:54-58 | a grammar record has keys Front, Back and Rule, bound to the stripped parts 0 and 1 and to part 2 or "" |
| Cards.GrammarRecordFields | main.py:52-58 | a grammar line that yields a record has at least two parts, and its record is made from them |
| Cards.GrammarRoundTrip | main.py:52-58 | a line of Front, Back and Rule joined by the grammar separator, written from a non-empty Front, a non-empty Rule and stripped texts free of pipes, parses back to that card |
| Cards.GrammarRoundTripNoRule | main.py:52-58 | a line of Front and Back joined by the grammar separator, written from a non-empty Front and a non-empty Back that are stripped and free of pipes, parses back to that card with an empty Rule |
| Gender.OpeningTag | main.py:65-71 | there is a colour tag exactly when the language is `de` and the text starts with one of the three articles |
| Gender.ColorGender | main.py:64-72 | any language other than `de`, or a text without an article, is returned unchanged; otherwise the whole text is wrapped in the span of its article's colour |
| Gender.ArticlesExclusive | main.py:66-71 | no text starts with two of the articles, so the order in which they are tested never matters |
| Gender.ColorGenderIdempotent | main.py:64-72 | colouring a coloured text changes nothing |
| Gender.ColorGenderKeepsText | main.py:64-72 | the result is the text itself, or the text between one of the three opening tags and `</span>` |
| Notes.NoteFields | main.py:124-207 | a pronunciation or grammar note, and a lexicon note written with at most two pending images, has as many fields as its note type declares; a lexicon note has one text and one sound slot per spoken field after `baseS`, then at least two image slots |
| Notes.ModelId | main.py:91-187 | defines the genanki model id of each note type: 1284830180 (lexicon), 1081735104 (pronunciation), 1091735125 (grammar) |
| Notes.DeclaredFields | main.py:91-187 | defines the genanki field names of each note type, in order: eleven for lexicon, two for pronunciation, four for grammar; NoteFields is proved to fill exactly these |
| Notes.Pair | main.py:127-137 | defines one turn of the lexicon loop: an empty field gives two empty slots, any other its shown text (`fullT` coloured) and `[sound:sound{index}_{i}.mp3]`; always two entries |
| Notes.Pairs | main.py:126-137 | defines the pairs of the first n spoken fields in order, 2n entries, which Session.SpeakFields is proved to build (its positions are stated by PairsAt) |
| Notes.LexiconSoundName | main.py:131-132 | defines `sound{index}_{i}.mp3`, the speech file of a lexicon note's i-th spoken field (distinct for distinct i, by LexiconSoundNameInjective) |
| Notes.PronunciationSoundName | main.py:172-173 | defines `sound_{word}_{index}.mp3`, the speech file of a pronunciation note |
| Notes.GrammarSoundName | main.py:199-200 | defines `sound_grammar_{index}.mp3`, the speech file of a grammar note |
| Notes.ImageName | main.py:419-423 | defines `image{index}_{i}.png`, the i-th image saved for the card being written |
| Notes.LexiconFields | main.py:124-145 | a lexicon note's field list starts with `baseS`, has one text and one sound slot per spoken field and at least two image slots, and its image slots refer exactly to the pending image files when at most two are pending |
| Notes.NoteAudio | main.py:126-199 | the speech files of a note: for a lexicon note at most one per spoken field, none of an empty text; for a pronunciation or grammar note exactly one |
| Notes.LexiconAudioSpoken | main.py:127-131 | a lexicon note has at most one speech file per spoken field, and no speech file of an empty text |
| Notes.NoteMedia | main.py:126-200 | the names appended to `all_media`: the speech file names, in order, followed for a lexicon note by the pending image files |
| Notes.PairsAt | main.py:126-137 | the i-th spoken field's text and sound reference sit at positions 2i and 2i+1 of the pairs |
| Notes.LexiconLayout | main.py:124-145 | a lexicon note has 11 slots, in this order: `baseS`; for each of `baseT`, `fullT`, `s1T` and `s2T`, its text and `[sound:sound{index}_{i}.mp3]`, or two empty slots when the field is empty; `fullT` in its colour; then the two image slots, padded with "" |
| Notes.LexiconAudioNames | main.py:126-132 | the i-th field's speech file is listed exactly when the field is not empty |
| Notes.LexiconSpeech | main.py:126-134 | an empty field gets no speech file; `fullT` is spoken as entered, before it is coloured |
| Notes.LexiconSoundNameInjective | main.py:131 | the speech files of one lexicon note have distinct names |
| Notes.LexiconSlotContents | main.py:124-145 | the media slots of a lexicon note are the four sound slots, then the two image slots |
| Notes.ImageSlotTargets | main.py:139-145 | the image slots refer to the pending image files, in order; padding refers to nothing |
| Notes.NoteReferencesMedia | main.py:124-207 | the files a note's media slots refer to are exactly the names `create_note` appends to `all_media` in the same call, in the same order, for all three note types |
| Sessions.Fetched | main.py:258-266 | the images obtained are among the URLs asked for, and no more of them |
| Sessions.LastTwo | main.py:459-461 | `[-2:]` keeps the last two entries, or the whole list when it is shorter |
| Sessions.LastTwoAppend | main.py:454-461 | truncating after every click is the same as truncating once |
| Sessions.SelectionsKeepLastTwo | main.py:454-461 | after any number of clicks, the pending list is the last two URLs clicked (with earlier pending ones), in click order |
| Sessions.DeckIdsDistinct | main.py:359-376 | each note type and supported language has its own deck id |
| Sessions.DeckFallback | main.py:378-381 | an unlisted language gets the first deck of the table, the German one |
| Sessions.DeckInfo | main.py:359-381 | every deck has a positive id and a non-empty name, and lexicon, pronunciation and grammar decks take their ids from three separate ranges |
| Sessions.AddNoteKeepsConsistent | main.py:124-217 | writing a note keeps the session invariant `Consistent` |
| Sessions.ConsistentStep | main.py:209-217 | appending a well-formed note whose referenced files are listed and saved keeps the invariant |
| Sessions.PicturesKeepConsistent | main.py:416-423 | saving the downloaded images as the pending image files keeps the invariant |
| Sessions.StoreKeys | main.py:130-131 | saving speech files adds exactly their names to the files on disk |
| Sessions.Store | main.py:130-199 | defines the files left on disk after each speech file of a list is saved in order: each name maps to its text spoken in the note's language (its contract is in StoreKeys) |
| Sessions.StorePicturesKeys | main.py:419-423 | saving images adds exactly `image{index}_{i}.png` for each image to the files on disk |
| Sessions.StorePictures | main.py:419-423 | defines the files left on disk after the fetched images are saved in order as `image{index}_{i}.png` (its contract is in StorePicturesKeys) |
| Sessions.RecolouredStep | main.py:127-134 | each turn reads its field as entered, and colours `fullT` in the card only after saving its speech |
| Sessions.ImageSlots | main.py:140-145 | the image slots are one `<img>` reference per pending image file, padded with "" |
| Sessions.Session.constructor | main.py:299-306 | a fresh session has no notes, no media, counter 0, no pending images, and the deck id and name of its note type and language |
| Sessions.Session.CreateNote | main.py:75-217 | appends exactly one note with the type's field list; appends the note's media names to `all_media`; saves its speech files; counter + 1; pending images cleared after a lexicon note and untouched otherwise; `fullT` coloured in the caller's card; keeps the invariant |
| Sessions.Session.AddNote | main.py:209-217 | the note joins the end of the deck, the counter moves on by one, the pending images are cleared after a lexicon note and kept otherwise, and the invariant holds |
| Sessions.Session.WriteNote | main.py:89-207 | the branch of the note type computes that type's field list, media names and speech files |
| Sessions.Session.WriteLexicon | main.py:124-149 | the lexicon branch computes the lexicon field list and lists the speech files, then the pending image files |
| Sessions.Session.SpeakFields | main.py:126-137 | the loop over the four spoken fields builds the pairs, saves and lists each non-empty field's speech, and colours `fullT` |
| Sessions.Session.SpeakField | main.py:127-137 | one turn: an empty field gives `["", ""]` and saves nothing; otherwise `sound{index}_{i}.mp3` is saved and listed, then the shown text is paired with its reference |
| Sessions.Session.ListImages | main.py:148-149 | the pending image files are appended to `all_media` in order |
| Sessions.Session.WritePronunciation | main.py:170-175 | speaks the word into `sound_{word}_{index}.mp3`, lists it, and writes the word and its reference |
| Sessions.Session.WriteGrammar | main.py:198-207 | speaks Back into `sound_grammar_{index}.mp3`, lists it, and writes Front, Back, the reference and Rule (or "" without it) |
| Sessions.Session.SelectImage | main.py:454-461 | the clicked URL is appended and the list cut to its last two entries; the invariant holds |
| Sessions.Session.AddImages | main.py:416-423 | the images obtained are saved as `image{index}_{i}.png` and become the pending image files; the invariant holds |
| Draft.CreateListOfCardsDraft | main_LCG.py:5-24 | as written: None exactly on a blank text, else exactly one record, the positional seven-key record of the first line |
| Draft.NonBlankHasLines | main_LCG.py:19-20 | the loop runs at least once exactly when the text is not blank |
| Draft.DraftAgreesWithParser | main_LCG.py:19-23 | on non-blank text, the draft's record is the first record of the main.py lexicon parser |
| Draft.CreateListOfCardsDraftFixed | main_LCG.py:17-24 | with the `return` after the loop: one record per line of the stripped text, in order |
| Draft.DraftRecordsAgree | main_LCG.py:20-23 | on lines none of which is blank, the corrected draft and the main.py lexicon parser agree |
| Draft.DraftLosesLaterLines | main_LCG.py:20-24 | on any text with two or more non-blank lines, the main.py parser returns at least two records where the draft returns one |
| Draft.TwoLineExample | main_LCG.py:19-24 | `x\ny` (for example `a\nb`) has the two non-blank lines `x` and `y` |

## Left out

- The Streamlit user interface is not modelled: widgets, reruns, navigation, the editable fields, the progress bar, "Cancel" and reset. Only the clicked URL of the image picker is kept.
- gTTS speech synthesis is a network call. A call is modelled by the file it leaves behind, `files[name := Speech(text, lang)]`. Synthesis failures are not modelled.
- The genanki `Model`, `Note`, `Deck` and `Package` objects are not modelled, and neither are the card templates, the CSS or the `.apkg` serialisation of `create_deck`. A note is its note type plus its field list, and the deck is a sequence of notes. `ModelId` and `DeclaredFields` keep the model ids and field lists.
- `get_image_urls` (Google image scraping) is not modelled.
- `load_images` downloads over HTTP. Its outcome is a parameter of `AddImages`: one success flag per URL. PIL decoding and image content are not modelled.
- Python's `str.strip` and `splitlines` also handle Unicode whitespace and `\r`, `\x0b` and the like. The model handles only space, tab and `\n`.
- A dictionary's key order is not modelled; a record is a `map`.
- `create_note` with a mode other than the three note types would fail on an unbound `fields_note`. The model's `Mode` has only the three types.
- A card missing a field that `create_note` reads raises `KeyError` in the source. The model requires those fields (`HasKeys`) instead of modelling the exception.
- Sessions.Session.AddImages: the source also clears `image_viewer_urls` and `image_clicked`. These are picker display state and are not modelled.
- Notes.LexiconSoundNameInjective: stated for ordinals below 10, which covers the four ordinals a note uses.
- Grammar mode speaks `Back` even when it is empty. This is modelled as written.
- `create_note` clears `image_filename` and `image_urls_to_add` only after a lexicon note (main.py:215-217); the other note types leave them as they are. `Session.CreateNote` states this.

## Findings

| source | as written | input that shows it | evidently intended | confidence | as-written member | corrected member |
|---|---|---|---|---|---|---|
| main_LCG.py:24 | the `return` sits inside the `for` body, so the parser returns after the first line; on a blank text it falls off the end and returns `None` | `"a\nb"`: the draft returns one card (for `a`) where the docstring promises one card per line, and the main.py parser returns two | `return list_of_cards` after the loop: one record per line | high (not executed) | Draft.CreateListOfCardsDraft | Draft.CreateListOfCardsDraftFixed |

The as-written half is `Draft.CreateListOfCardsDraft`, whose contract states that it returns at most one record. `Draft.DraftLosesLaterLines` and `Draft.TwoLineExample` show the lost records.

The corrected half is `Draft.CreateListOfCardsDraftFixed`. It returns one record per line, in order. `Draft.DraftRecordsAgree` proves that it matches the lexicon parser of main.py on non-blank lines.
