/**
 * The diary screen of the emotion diary: the fixed set of eight emotions, the
 * list of entries, and the handlers that save, delete and reload entries through
 * the hosted document store. The store is not modelled: each call's result is a
 * parameter, and so are the clock readings `Timestamp.now()` and `new Date()`.
 */
module Diary {
  import opened Options
  import opened JsStrings
  import opened Ui

  /** An emoji and its label (the source's `label`; `label` is a keyword here). */
  datatype Emotion = Emotion(emoji: string, name: string)

  const EMOTIONS: seq<Emotion> := [
    Emotion("😊", "행복"),
    Emotion("😢", "슬픔"),
    Emotion("😠", "화남"),
    Emotion("😰", "불안"),
    Emotion("😴", "피곤"),
    Emotion("🥰", "사랑"),
    Emotion("😎", "자신감"),
    Emotion("🤔", "고민")
  ]

  /** An entry as the screen lists it; `date` is an ISO-8601 string. */
  datatype Entry = Entry(id: string, emotion: Emotion, memo: string, date: string)

  /** The document `handleSave` adds to the 'diaries' collection; `createdAt` is the `Timestamp.now()` reading. */
  datatype DiaryDoc = DiaryDoc(emotion: Emotion, memo: string, createdAt: int, date: string)

  /**
   * A document of the query snapshot. `createdAtIso` is what
   * `data.createdAt?.toDate?.()?.toISOString()` gives, `None` where that chain
   * yields `undefined`.
   */
  datatype StoredDoc = StoredDoc(id: string, emotion: Emotion, memo: string, createdAtIso: Option<string>, date: string)

  datatype AddOutcome = Added(id: string) | AddFailed
  datatype FetchOutcome = Fetched(docs: seq<StoredDoc>) | FetchFailed
  datatype DeleteOutcome = Removed | RemoveFailed

  const PICK_EMOTION_ALERT := Alert("알림", "오늘의 기분을 선택해주세요!")
  const SAVED_ALERT := Alert("저장 완료", "오늘의 감정이 Firestore에 저장되었습니다!")
  const SAVE_FAILED_ALERT := Alert("저장 실패", "Firebase 설정을 확인해주세요.")
  const LOAD_FAILED_ALERT := Alert("오류", "Firebase 연결을 확인해주세요.\nfirebaseConfig.js 설정이 필요합니다.")
  const DELETE_FAILED_ALERT := Alert("삭제 실패", "다시 시도해주세요.")

  /** The entry `loadEntries` makes of one document: the converted `createdAt` unless it is missing or empty, else `date`. */
  function EntryOf(d: StoredDoc): (e: Entry)
    ensures e.id == d.id && e.emotion == d.emotion && e.memo == d.memo
    ensures e.date == d.date || (d.createdAtIso == Some(e.date) && e.date != "")
    ensures d.createdAtIso.None? || d.createdAtIso == Some("") ==> e.date == d.date
    ensures d.createdAtIso.Some? && d.createdAtIso.value != "" ==> e.date == d.createdAtIso.value
  {
    var date := if d.createdAtIso.Some? && d.createdAtIso.value != "" then d.createdAtIso.value else d.date;
    Entry(d.id, d.emotion, d.memo, date)
  }

  /** `entries.filter((entry) => entry.id !== id)`. */
  function WithoutId(entries: seq<Entry>, id: string): (r: seq<Entry>)
    ensures |r| <= |entries|
  {
    if entries == [] then []
    else if entries[0].id == id then WithoutId(entries[1..], id)
    else [entries[0]] + WithoutId(entries[1..], id)
  }

  /** The kept entries are exactly those whose id differs from the deleted one. */
  lemma {:induction false} WithoutIdMembers(entries: seq<Entry>, id: string)
    ensures forall e :: e in WithoutId(entries, id) <==> e in entries && e.id != id
    decreases |entries|
  {
    if entries != [] {
      WithoutIdMembers(entries[1..], id);
      assert forall e :: e in entries <==> e == entries[0] || e in entries[1..];
    }
  }

  /** The `forEach` of `loadEntries`: one entry per document, in the order the query returned them. */
  method CollectEntries(docs: seq<StoredDoc>) returns (loaded: seq<Entry>)
    ensures |loaded| == |docs|
    ensures forall k :: 0 <= k < |docs| ==> loaded[k] == EntryOf(docs[k])
  {
    loaded := [];
    var i := 0;
    while i < |docs|
      invariant 0 <= i <= |docs|
      invariant |loaded| == i
      invariant forall k :: 0 <= k < i ==> loaded[k] == EntryOf(docs[k])
    {
      loaded := loaded + [EntryOf(docs[i])];
      i := i + 1;
    }
  }

  class DiaryScreen {
    var selectedEmotion: Option<Emotion>
    var memo: string
    var entries: seq<Entry>
    var loading: bool
    var saving: bool

    /** The selection is only ever set from `EMOTIONS`. */
    ghost predicate Valid()
      reads this
    {
      selectedEmotion.Some? ==> selectedEmotion.value in EMOTIONS
    }

    /** The initial state: nothing selected, empty memo and list, loading (the first load runs on mount). */
    constructor ()
      ensures Valid()
      ensures selectedEmotion == None && memo == "" && entries == [] && loading && !saving
    {
      selectedEmotion, memo, entries, loading, saving := None, "", [], true, false;
    }

    /** Tapping the k-th emotion button. */
    method SelectEmotion(k: nat)
      requires k < |EMOTIONS|
      modifies this`selectedEmotion
      ensures Valid() && selectedEmotion == Some(EMOTIONS[k])
    {
      selectedEmotion := Some(EMOTIONS[k]);
    }

    method EditMemo(text: string)
      modifies this`memo
      ensures memo == text
    {
      memo := text;
    }

    // ----- loadEntries -----

    method BeginLoad()
      modifies this`loading
      ensures loading
    {
      loading := true;
    }

    /** `loadEntries` after the `await`: the list replaced wholesale on success, kept on failure; `loading` cleared. */
    method CompleteLoad(outcome: FetchOutcome) returns (alert: Option<Alert>)
      modifies this`entries, this`loading
      ensures !loading
      ensures outcome.Fetched? ==>
        alert == None && |entries| == |outcome.docs| &&
        forall k :: 0 <= k < |entries| ==> entries[k] == EntryOf(outcome.docs[k])
      ensures outcome.FetchFailed? ==> alert == Some(LOAD_FAILED_ALERT) && entries == old(entries)
    {
      match outcome {
        case Fetched(docs) =>
          var loaded := CollectEntries(docs);
          entries := loaded;
          alert := None;
        case FetchFailed =>
          alert := Some(LOAD_FAILED_ALERT);
      }
      loading := false;
    }

    method LoadEntries(outcome: FetchOutcome) returns (alert: Option<Alert>)
      modifies this`entries, this`loading
      ensures !loading
      ensures outcome.Fetched? ==>
        alert == None && |entries| == |outcome.docs| &&
        forall k :: 0 <= k < |entries| ==> entries[k] == EntryOf(outcome.docs[k])
      ensures outcome.FetchFailed? ==> alert == Some(LOAD_FAILED_ALERT) && entries == old(entries)
    {
      BeginLoad();
      alert := CompleteLoad(outcome);
    }

    // ----- handleSave -----

    /**
     * `handleSave` up to the `await`: with nothing selected it shows a notice and
     * changes nothing; otherwise it sets `saving` and returns the document to add.
     */
    method BeginSave(createdAt: int, now: string) returns (write: Option<DiaryDoc>, alert: Option<Alert>)
      requires Valid()
      modifies this`saving
      ensures selectedEmotion.None? ==> write == None && alert == Some(PICK_EMOTION_ALERT) && saving == old(saving)
      ensures selectedEmotion.Some? ==>
        write == Some(DiaryDoc(selectedEmotion.value, Trim(memo), createdAt, now)) && alert == None && saving
      ensures write.Some? ==> write.value.emotion in EMOTIONS
    {
      if selectedEmotion.None? {
        write, alert := None, Some(PICK_EMOTION_ALERT);
        return;
      }
      saving := true;
      var emotion := Emotion(selectedEmotion.value.emoji, selectedEmotion.value.name);
      write := Some(DiaryDoc(emotion, Trim(memo), createdAt, now));
      alert := None;
    }

    /**
     * `handleSave` after the `await`: on success the new entry goes first, ahead of
     * the old list, and the form is reset; on failure nothing but `saving` changes.
     */
    method CompleteSave(write: DiaryDoc, outcome: AddOutcome) returns (alert: Option<Alert>)
      requires Valid()
      modifies this`entries, this`selectedEmotion, this`memo, this`saving
      ensures Valid() && !saving
      ensures outcome.Added? ==>
        entries == [Entry(outcome.id, write.emotion, write.memo, write.date)] + old(entries) &&
        selectedEmotion == None && memo == "" && alert == Some(SAVED_ALERT)
      ensures outcome.AddFailed? ==>
        entries == old(entries) && selectedEmotion == old(selectedEmotion) && memo == old(memo) &&
        alert == Some(SAVE_FAILED_ALERT)
    {
      match outcome {
        case Added(id) =>
          var entryWithId := Entry(id, write.emotion, write.memo, write.date);
          entries := [entryWithId] + entries;
          selectedEmotion := None;
          memo := "";
          alert := Some(SAVED_ALERT);
        case AddFailed =>
          alert := Some(SAVE_FAILED_ALERT);
      }
      saving := false;
    }

    /** The whole of `handleSave`, the store answering `outcome` if it is called at all. */
    method HandleSave(createdAt: int, now: string, outcome: AddOutcome) returns (write: Option<DiaryDoc>, alert: Option<Alert>)
      requires Valid()
      modifies this`entries, this`selectedEmotion, this`memo, this`saving
      ensures Valid()
      ensures old(selectedEmotion).None? ==>
        write == None && alert == Some(PICK_EMOTION_ALERT) &&
        entries == old(entries) && memo == old(memo) && selectedEmotion == None && saving == old(saving)
      ensures old(selectedEmotion).Some? ==>
        write == Some(DiaryDoc(old(selectedEmotion).value, Trim(old(memo)), createdAt, now)) && !saving
      ensures old(selectedEmotion).Some? && outcome.Added? ==>
        |entries| == |old(entries)| + 1 && entries[1..] == old(entries) &&
        entries[0] == Entry(outcome.id, old(selectedEmotion).value, Trim(old(memo)), now) &&
        entries[0].emotion in EMOTIONS &&
        selectedEmotion == None && memo == "" && alert == Some(SAVED_ALERT)
      ensures old(selectedEmotion).Some? && outcome.AddFailed? ==>
        entries == old(entries) && selectedEmotion == old(selectedEmotion) && memo == old(memo) &&
        alert == Some(SAVE_FAILED_ALERT)
    {
      write, alert := BeginSave(createdAt, now);
      if write.Some? {
        assert write.value == DiaryDoc(old(selectedEmotion).value, Trim(old(memo)), createdAt, now);
        alert := CompleteSave(write.value, outcome);
      }
    }

    // ----- handleDelete -----

    /** The confirmed branch of `handleDelete`: drop every entry with that id, or keep the list if the store refused. */
    method HandleDelete(id: string, outcome: DeleteOutcome) returns (alert: Option<Alert>)
      modifies this`entries
      ensures outcome.Removed? ==> entries == WithoutId(old(entries), id) && alert == None
      ensures outcome.RemoveFailed? ==> entries == old(entries) && alert == Some(DELETE_FAILED_ALERT)
    {
      match outcome {
        case Removed =>
          entries := WithoutId(entries, id);
          alert := None;
        case RemoveFailed =>
          alert := Some(DELETE_FAILED_ALERT);
      }
    }
  }

  // ----- properties of the emotion set -----

  /** Eight emotions with eight different emojis (the emoji is the button's key). */
  lemma EmotionsDistinct()
    ensures |EMOTIONS| == 8
    ensures forall i, j :: 0 <= i < j < |EMOTIONS| ==> EMOTIONS[i].emoji != EMOTIONS[j].emoji
  {
  }

  // ----- properties of the delete filter -----

  /** Filtering distributes over concatenation: the kept entries stay in their original order. */
  lemma {:induction false} WithoutIdAppend(a: seq<Entry>, b: seq<Entry>, id: string)
    ensures WithoutId(a + b, id) == WithoutId(a, id) + WithoutId(b, id)
    decreases |a|
  {
    if a != [] {
      WithoutIdAppend(a[1..], b, id);
      assert (a + b)[1..] == a[1..] + b;
    } else {
      assert a + b == b;
    }
  }

  /** Deleting an id no entry carries leaves the list as it was. */
  lemma {:induction false} WithoutAbsentId(entries: seq<Entry>, id: string)
    requires forall k :: 0 <= k < |entries| ==> entries[k].id != id
    ensures WithoutId(entries, id) == entries
    decreases |entries|
  {
    if entries != [] {
      WithoutAbsentId(entries[1..], id);
      assert entries == [entries[0]] + entries[1..];
    }
  }

  /** Each entry keeps its multiplicity unless it carries the id, in which case none is left. */
  lemma {:induction false} WithoutIdMultiplicity(entries: seq<Entry>, id: string, e: Entry)
    ensures multiset(WithoutId(entries, id))[e] == if e.id == id then 0 else multiset(entries)[e]
    decreases |entries|
  {
    if entries != [] {
      WithoutIdMultiplicity(entries[1..], id, e);
      assert entries == [entries[0]] + entries[1..];
    }
  }

  /** A second delete of the same id changes nothing. */
  lemma WithoutIdIdempotent(entries: seq<Entry>, id: string)
    ensures WithoutId(WithoutId(entries, id), id) == WithoutId(entries, id)
  {
    var r := WithoutId(entries, id);
    WithoutIdMembers(entries, id);
    forall k | 0 <= k < |r| ensures r[k].id != id {
      assert r[k] in r;
    }
    WithoutAbsentId(r, id);
  }

  /** A saved entry lands first, ahead of the untouched earlier entries, and deleting it again restores them when its id was new. */
  lemma SaveThenDelete(entry: Entry, entries: seq<Entry>)
    requires forall k :: 0 <= k < |entries| ==> entries[k].id != entry.id
    ensures WithoutId([entry] + entries, entry.id) == entries
  {
    WithoutIdAppend([entry], entries, entry.id);
    WithoutAbsentId(entries, entry.id);
    assert WithoutId([entry], entry.id) == [];
  }
}
