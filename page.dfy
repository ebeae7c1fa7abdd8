/**
 * The logic of the OCR page: recognised text is split into non-blank
 * lines, the lines can be read out together, and they can be merged into
 * the favourite-word list kept in local storage.
 *
 * The page's React state (`texts`, `isProcessing`, `tempFilePath`), the
 * stored favourites and the alerts shown are the fields of `OcrPage`; the
 * file picked, its object URL, the recognition reply and `Date.now()` are
 * inputs of its handlers.
 */
module EnglishPage {
  import opened Wrappers
  import Ascii
  import Lists
  import Favorites
  import Common
  import Playback

  /** `text-${index}-${stamp}`; two ids are equal exactly when both parts are. */
  datatype ItemId = ItemId(index: nat, stamp: int)

  datatype TextItem = TextItem(id: ItemId, content: string)

  datatype Notice =
    | SelectImageFile      // the chosen file is not an image
    | NoTextRecognized
    | RecognitionFailed
    | NothingToFavorite
    | Favorited(count: nat)
    | NothingToPlay

  // ------------------------------------------------------------ OCR lines

  /**
   * `pieces.filter(item => item.trim().length > 0)`; a piece's trim is
   * empty exactly when the piece is blank (`Ascii.TrimEmptyIffBlank`).
   */
  function NonBlank(pieces: seq<string>): (r: seq<string>)
    ensures |r| <= |pieces|
  {
    if pieces == [] then []
    else if !Ascii.IsBlank(pieces[0]) then [pieces[0]] + NonBlank(pieces[1..])
    else NonBlank(pieces[1..])
  }

  /** The filter keeps exactly the non-blank pieces. */
  lemma {:induction false} NonBlankMembers(pieces: seq<string>)
    ensures forall x :: x in NonBlank(pieces) <==> x in pieces && !Ascii.IsBlank(x)
    decreases |pieces|
  {
    if pieces != [] {
      NonBlankMembers(pieces[1..]);
      assert pieces == [pieces[0]] + pieces[1..];
    }
  }

  /** A list of non-blank pieces is kept whole. */
  lemma {:induction false} NonBlankOfLines(pieces: seq<string>)
    requires forall i :: 0 <= i < |pieces| ==> !Ascii.IsBlank(pieces[i])
    ensures NonBlank(pieces) == pieces
    decreases |pieces|
  {
    if pieces != [] {
      NonBlankOfLines(pieces[1..]);
    }
  }

  /** Filtering distributes over concatenation, so it keeps the order of what it keeps. */
  lemma {:induction false} NonBlankAppend(a: seq<string>, b: seq<string>)
    ensures NonBlank(a + b) == NonBlank(a) + NonBlank(b)
    decreases |a|
  {
    if a == [] {
      assert a + b == b;
    } else {
      assert (a + b)[0] == a[0];
      assert (a + b)[1..] == a[1..] + b;
      NonBlankAppend(a[1..], b);
    }
  }

  /** The recognised text split at '\n', blank lines dropped, each kept line untrimmed. */
  function Lines(content: string): seq<string> {
    NonBlank(Ascii.Split(content, '\n'))
  }

  /** Every line is non-blank and holds no '\n'; every non-blank '\n'-separated piece is a line. */
  lemma LinesSpec(content: string)
    ensures forall x :: x in Lines(content) <==> x in Ascii.Split(content, '\n') && !Ascii.IsBlank(x)
    ensures forall x :: x in Lines(content) ==> Ascii.Trim(x) != []
    ensures forall i :: 0 <= i < |Lines(content)| ==> '\n' !in Lines(content)[i]
  {
    NonBlankMembers(Ascii.Split(content, '\n'));
    var pieces := Ascii.Split(content, '\n');
    forall x | x in Lines(content) ensures Ascii.Trim(x) != [] {
      Ascii.TrimEmptyIffBlank(x);
    }
    forall i | 0 <= i < |Lines(content)| ensures '\n' !in Lines(content)[i] {
      assert Lines(content)[i] in pieces;
    }
  }

  /** The lines of a '\n'-joined text are its non-blank parts, in order. */
  lemma LinesOfJoin(parts: seq<string>)
    requires |parts| >= 1
    requires forall i :: 0 <= i < |parts| ==> '\n' !in parts[i]
    ensures Lines(Ascii.Join(parts, '\n')) == NonBlank(parts)
  {
    Ascii.SplitJoin(parts, '\n');
  }

  /** `.map((text, index) => ({ id: \`text-${index}-${Date.now()}\`, content: text }))`. */
  function MakeItems(lines: seq<string>, now: int): (items: seq<TextItem>)
    ensures |items| == |lines|
    ensures forall i :: 0 <= i < |items| ==> items[i].content == lines[i] && items[i].id.index == i
  {
    seq(|lines|, i requires 0 <= i < |lines| => TextItem(ItemId(i, now), lines[i]))
  }

  /** Every item gets its own id. */
  lemma ItemIdsDistinct(lines: seq<string>, now: int)
    ensures forall i, j :: 0 <= i < j < |lines| ==> MakeItems(lines, now)[i].id != MakeItems(lines, now)[j].id
  {
  }

  /** `outputText?.content` is truthy: present and non-empty. */
  predicate HasText(content: Option<string>) {
    content.Some? && content.value != ""
  }

  /** What the recognition step (reading the file, then the remote call) returned. */
  datatype OcrReply =
    | ReadFailed                          // reading the file or the remote call threw
    | Recognized(content: Option<string>)

  /** `file.type.startsWith('image/')`. */
  predicate IsImageType(mimeType: string) {
    Ascii.StartsWith(mimeType, "image/")
  }

  // ------------------------------------------------------------ play all

  function Contents(texts: seq<TextItem>): (r: seq<string>)
    ensures |r| == |texts|
    ensures forall i :: 0 <= i < |texts| ==> r[i] == texts[i].content
  {
    seq(|texts|, i requires 0 <= i < |texts| => texts[i].content)
  }

  /**
   * `playAllTexts`: the text handed to `generateAudio`, or None when the
   * space-joined contents are blank (and "nothing to play" is alerted).
   */
  function PlayAllRequest(texts: seq<TextItem>): Option<string> {
    var fullText := Ascii.Join(Contents(texts), ' ');
    if |Ascii.Trim(fullText)| > 0 then Some(Ascii.ToLower(fullText)) else None
  }

  lemma LowerBlank(s: string)
    ensures Ascii.IsBlank(Ascii.ToLower(s)) <==> Ascii.IsBlank(s)
  {
    var t := Ascii.ToLower(s);
    assert forall i :: 0 <= i < |s| ==> (Ascii.IsSpace(t[i]) <==> Ascii.IsSpace(s[i]));
  }

  /**
   * Something is read out exactly when some line has a non-blank content,
   * and then it is the lower-cased space-join of all contents, which is
   * itself not blank (so `generateAudio` does not stop at its input check).
   */
  lemma PlayAllSpec(texts: seq<TextItem>)
    ensures PlayAllRequest(texts).Some? <==> exists i :: 0 <= i < |texts| && !Ascii.IsBlank(texts[i].content)
    ensures PlayAllRequest(texts).Some? ==>
      PlayAllRequest(texts).value == Ascii.ToLower(Ascii.Join(Contents(texts), ' '))
      && !Ascii.IsBlank(PlayAllRequest(texts).value)
  {
    var cs := Contents(texts);
    var fullText := Ascii.Join(cs, ' ');
    Ascii.TrimEmptyIffBlank(fullText);
    Ascii.JoinBlank(cs, ' ');
    LowerBlank(fullText);
  }

  /** A "play all" request always gets past `generateAudio`'s input check to the speech service. */
  lemma PlayAllReachesSpeech(texts: seq<TextItem>, env: Common.Env, reply: Result<seq<Common.byte>, string>,
                             playback: Option<Playback.Outcome>)
    requires PlayAllRequest(texts).Some?
    ensures var t := PlayAllRequest(texts).value;
      var r := Common.GenerateAudio(env, t, reply, playback);
      |r.effects| > 0 && r.effects[0] == Common.Synthesize(t)
  {
    PlayAllSpec(texts);
    Common.SynthesizesUntrimmedWord(env, PlayAllRequest(texts).value, reply, playback);
  }

  // ------------------------------------------------------------ favourites

  /** What `localStorage.getItem('my-favorite-words')` holds, as `JSON.parse` sees it. */
  datatype StoredValue =
    | Missing                      // null or the empty string
    | Unparsable                   // `JSON.parse` throws
    | WordList(words: seq<string>) // a JSON array of strings
    | NotIterable                  // valid JSON that `[...x]` cannot spread (a number, an object, ...)

  /** `content.toLowerCase().trim()`: no white space at its ends and no upper-case letter. */
  function NewWord(content: string): (w: string)
    ensures Ascii.IsTrimmed(w)
  {
    Ascii.Trim(Ascii.ToLower(content))
  }

  /** The words added, one per text. */
  function NewWords(texts: seq<TextItem>): (r: seq<string>)
    ensures |r| == |texts|
    ensures forall i :: 0 <= i < |r| ==> r[i] == NewWord(texts[i].content)
  {
    seq(|texts|, i requires 0 <= i < |texts| => NewWord(texts[i].content))
  }

  /** The stored list; `None` when spreading it throws. */
  function Existing(stored: StoredValue): Option<seq<string>> {
    match stored
    case WordList(words) => Some(words)
    case NotIterable => None
    case _ => Some([])
  }

  /** What a click on "add to favourites" does: the alerts, the list written, whether it threw. */
  datatype AddOutcome = AddOutcome(alerts: seq<Notice>, written: Option<seq<string>>, threw: bool)

  /**
   * `onAddToFavorites` as written: the final `localStorage.setStorageSync`
   * is not a method of Web Storage, so the call throws a TypeError; nothing
   * is written and the success alert is never reached.
   */
  function AddToFavoritesAsWritten(texts: seq<TextItem>, stored: StoredValue): AddOutcome {
    if |texts| == 0 then AddOutcome([NothingToFavorite], None, false)
    else AddOutcome([], None, true)
  }

  /** For every non-empty list of texts the handler as written saves nothing and alerts nothing. */
  lemma AsWrittenNeverSaves(texts: seq<TextItem>, stored: StoredValue)
    requires |texts| > 0
    ensures AddToFavoritesAsWritten(texts, stored) == AddOutcome([], None, true)
    ensures AddToFavorites(texts, stored).written.Some? <==> stored != NotIterable
  {
  }

  /**
   * `onAddToFavorites` with the write it evidently intends
   * (`localStorage.setItem`): the stored list followed by the new words,
   * first occurrences only, then an alert counting the new words.
   */
  function AddToFavorites(texts: seq<TextItem>, stored: StoredValue): AddOutcome {
    if |texts| == 0 then AddOutcome([NothingToFavorite], None, false)
    else
      match Existing(stored)
      case None => AddOutcome([], None, true)
      case Some(existing) =>
        var newWords := NewWords(texts);
        AddOutcome([Favorited(|newWords|)], Some(Favorites.Merge(existing, newWords)), false)
  }

  /**
   * With texts on the page, the list written holds every stored word and
   * every new word, no word twice, the stored list (when it had no repeats)
   * as its prefix, and the alert counts the texts, not the words added.
   */
  lemma AddToFavoritesSpec(texts: seq<TextItem>, stored: StoredValue)
    requires |texts| > 0 && stored != NotIterable
    ensures var r := AddToFavorites(texts, stored);
      var existing := Existing(stored).value;
      && r.alerts == [Favorited(|texts|)] && !r.threw
      && r.written == Some(Favorites.Merge(existing, NewWords(texts)))
      && Lists.NoDuplicates(r.written.value)
      && (forall w :: w in r.written.value <==> w in existing || w in NewWords(texts))
      && (Lists.NoDuplicates(existing) ==> existing <= r.written.value)
  {
    var existing := Existing(stored).value;
    Favorites.MergeSpec(existing, NewWords(texts));
  }

  /** With no texts nothing is written, whatever is stored. */
  lemma NoTextsNoWrite(stored: StoredValue)
    ensures AddToFavorites([], stored) == AddOutcome([NothingToFavorite], None, false)
  {
  }

  /** A missing or unparsable stored value counts as an empty list. */
  lemma UnreadableStoredIsEmpty(texts: seq<TextItem>)
    ensures AddToFavorites(texts, Unparsable) == AddToFavorites(texts, Missing)
    ensures AddToFavorites(texts, Missing) == AddToFavorites(texts, WordList([]))
  {
  }

  lemma LowerExample()
    ensures Ascii.ToLower(" Cat ") == " cat "
  {
  }

  lemma TrimExample()
    ensures Ascii.Trim(" cat ") == "cat"
  {
    var start := Ascii.TrimStart(" cat ");
    assert start == " cat "[1..];
    assert start == "cat ";
    assert Ascii.TrimEnd(start) == start[..3];
  }

  lemma NewWordExample()
    ensures NewWord(" Cat ") == "cat"
  {
    LowerExample();
    TrimExample();
  }

  /** A new word never holds an upper-case letter. */
  lemma NewWordIsLower(content: string)
    ensures forall k :: 0 <= k < |NewWord(content)| ==> !Ascii.IsUpper(NewWord(content)[k])
  {
    var t := Ascii.ToLower(content);
    Common.TrimChars(t);
    forall k | 0 <= k < |NewWord(content)| ensures !Ascii.IsUpper(NewWord(content)[k]) {
      assert NewWord(content)[k] in t;
    }
  }

  /** A word holding an upper-case letter is never among the new words, so a stored one is never matched. */
  lemma UpperWordNeverMatched(texts: seq<TextItem>, w: string, k: nat)
    requires k < |w| && Ascii.IsUpper(w[k])
    ensures w !in NewWords(texts)
  {
    if w in NewWords(texts) {
      var i :| 0 <= i < |texts| && NewWords(texts)[i] == w;
      NewWordIsLower(texts[i].content);
    }
  }

  /**
   * New words are normalised but stored ones are compared as they are:
   * " Cat " on the page adds a word "cat" beside a stored "Cat".
   */
  lemma StoredWordsComparedAsIs(now: int)
    ensures var r := AddToFavorites([TextItem(ItemId(0, now), " Cat ")], WordList(["Cat"]));
      r.written.Some? && "Cat" in r.written.value && "cat" in r.written.value
  {
    var t := [TextItem(ItemId(0, now), " Cat ")];
    NewWordExample();
    assert NewWords(t)[0] == "cat";
    AddToFavoritesSpec(t, WordList(["Cat"]));
  }

  /** The alert counts the new words, not the words added: a word already stored still counts. */
  lemma AlertCountsNewWords(now: int)
    ensures AddToFavorites([TextItem(ItemId(0, now), "cat")], WordList(["cat"]))
      == AddOutcome([Favorited(1)], Some(["cat"]), false)
  {
    var u := [TextItem(ItemId(0, now), "cat")];
    assert NewWord("cat") == "cat" by {
      assert Ascii.ToLower("cat") == "cat";
      Ascii.TrimOfTrimmed("cat");
    }
    assert NewWords(u) == ["cat"];
    Favorites.MergeOne(["cat"], "cat");
  }

  // ------------------------------------------------------------ the page

  /** The picked file; only its MIME type matters here. */
  datatype PickedFile = PickedFile(mimeType: string)

  class OcrPage {
    var tempFilePath: string
    var texts: seq<TextItem>
    var isProcessing: bool
    /** The value stored under the key 'my-favorite-words'. */
    var favorites: StoredValue
    /** Every alert shown so far, in order. */
    var alerts: seq<Notice>

    constructor (favorites: StoredValue)
      ensures tempFilePath == "" && texts == [] && !isProcessing
      ensures this.favorites == favorites && alerts == []
    {
      tempFilePath := "";
      texts := [];
      isProcessing := false;
      this.favorites := favorites;
      alerts := [];
    }

    /**
     * `handleImageToText`: recognised text replaces the lines on the page;
     * no text clears them with an alert; a failure keeps them and alerts.
     * Processing is over when it returns.
     */
    method HandleImageToText(reply: OcrReply, now: int)
      modifies this
      ensures !isProcessing
      ensures tempFilePath == old(tempFilePath) && favorites == old(favorites)
      ensures reply.ReadFailed? ==> texts == old(texts) && alerts == old(alerts) + [RecognitionFailed]
      ensures reply.Recognized? && HasText(reply.content) ==>
        texts == MakeItems(Lines(reply.content.value), now) && alerts == old(alerts)
      ensures reply.Recognized? && !HasText(reply.content) ==>
        texts == [] && alerts == old(alerts) + [NoTextRecognized]
    {
      isProcessing := true;
      match reply {
        case ReadFailed =>
          alerts := alerts + [RecognitionFailed];
        case Recognized(content) =>
          if HasText(content) {
            texts := MakeItems(Lines(content.value), now);
          } else {
            texts := [];
            alerts := alerts + [NoTextRecognized];
          }
      }
      isProcessing := false;
    }

    /**
     * `handleImageSelect`: no file does nothing; a file that is not an
     * image is refused before any preview or recognition; an image is
     * previewed from its object URL and recognised.
     */
    method HandleImageSelect(file: Option<PickedFile>, objectUrl: string, reply: OcrReply, now: int)
      modifies this
      ensures file.None? ==>
        tempFilePath == old(tempFilePath) && texts == old(texts) && alerts == old(alerts)
        && isProcessing == old(isProcessing)
      ensures file.Some? && !IsImageType(file.value.mimeType) ==>
        tempFilePath == old(tempFilePath) && texts == old(texts) && alerts == old(alerts) + [SelectImageFile]
        && isProcessing == old(isProcessing)
      ensures file.Some? && IsImageType(file.value.mimeType) ==> tempFilePath == objectUrl && !isProcessing
      ensures file.Some? && IsImageType(file.value.mimeType) && reply.ReadFailed? ==>
        texts == old(texts) && alerts == old(alerts) + [RecognitionFailed]
      ensures file.Some? && IsImageType(file.value.mimeType) && reply.Recognized? && HasText(reply.content) ==>
        texts == MakeItems(Lines(reply.content.value), now) && alerts == old(alerts)
      ensures file.Some? && IsImageType(file.value.mimeType) && reply.Recognized? && !HasText(reply.content) ==>
        texts == [] && alerts == old(alerts) + [NoTextRecognized]
      ensures favorites == old(favorites)
    {
      if file.None? {
        return;
      }
      if !IsImageType(file.value.mimeType) {
        alerts := alerts + [SelectImageFile];
        return;
      }
      tempFilePath := objectUrl;
      HandleImageToText(reply, now);
    }

    /**
     * `playAllTexts`: the text handed to `generateAudio`, or None with a
     * "nothing to play" alert when the joined contents are blank.
     */
    method PlayAllTexts() returns (request: Option<string>)
      modifies this`alerts
      ensures request == PlayAllRequest(texts)
      ensures request.Some? ==> alerts == old(alerts)
      ensures request.None? ==> alerts == old(alerts) + [NothingToPlay]
    {
      var fullText := Ascii.Join(Contents(texts), ' ');
      if |Ascii.Trim(fullText)| > 0 {
        request := Some(Ascii.ToLower(fullText));
      } else {
        request := None;
        alerts := alerts + [NothingToPlay];
      }
    }

    /** `onAddToFavorites`, with the storage write the code intends. */
    method OnAddToFavorites() returns (threw: bool)
      modifies this`favorites, this`alerts
      ensures var r := AddToFavorites(old(texts), old(favorites));
        && favorites == (if r.written.Some? then WordList(r.written.value) else old(favorites))
        && alerts == old(alerts) + r.alerts
        && threw == r.threw
    {
      var r := AddToFavorites(texts, favorites);
      if r.written.Some? {
        favorites := WordList(r.written.value);
      }
      alerts := alerts + r.alerts;
      threw := r.threw;
    }
  }
}
