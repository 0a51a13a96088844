/**
 * The wordbook: the user's list of saved words, newest first, without
 * duplicates, kept in memory by the component and written through to the
 * browser's local storage under one key on every change.
 */
module WordbookStore {
  import opened Wrappers
  import opened BrowserStorage

  /** The one storage key the wordbook reads at startup and writes on every add. */
  const Key := "wordbook"

  /** No word occurs twice. */
  ghost predicate Distinct(s: seq<string>) {
    forall i, j :: 0 <= i < j < |s| ==> s[i] != s[j]
  }

  /**
   * The list `addWord` leaves behind: `w` is put in front when it is absent
   * (exact string match), and the list is kept as it is otherwise.
   */
  function InsertIfAbsent(words: seq<string>, w: string): (r: seq<string>)
    ensures w in r
    ensures forall x :: x in r <==> x == w || x in words
    ensures |r| == if w in words then |words| else |words| + 1
    // the earlier words keep their relative order, behind anything new
    ensures r[|r| - |words|..] == words
    // a new word becomes the newest, at the front
    ensures w !in words ==> r[0] == w
  {
    if w in words then words else [w] + words
  }

  /** The contract of InsertIfAbsent determines its result: any list meeting it is that result. */
  lemma InsertCharacterised(words: seq<string>, w: string, r: seq<string>)
    requires |r| == if w in words then |words| else |words| + 1
    requires r[|r| - |words|..] == words
    requires w !in words ==> r[0] == w
    ensures r == InsertIfAbsent(words, w)
  {
  }

  /** Adding a word that is already saved changes nothing; in particular adding twice is adding once. */
  lemma InsertIdempotent(words: seq<string>, w: string)
    ensures InsertIfAbsent(InsertIfAbsent(words, w), w) == InsertIfAbsent(words, w)
    ensures w in words ==> InsertIfAbsent(words, w) == words
  {
  }

  /** A list without duplicates has none after an add. */
  lemma InsertKeepsDistinct(words: seq<string>, w: string)
    requires Distinct(words)
    ensures Distinct(InsertIfAbsent(words, w))
  {
  }

  /** The list after `addWord` has been called with each of `ws`, in that order. */
  function AddAll(words: seq<string>, ws: seq<string>): (r: seq<string>)
    decreases |ws|
  {
    if ws == [] then words else AddAll(InsertIfAbsent(words, ws[0]), ws[1..])
  }

  /** After any run of adds, the saved words are the earlier ones and the added ones, and no others. */
  lemma {:induction false} AddAllMembers(words: seq<string>, ws: seq<string>)
    ensures forall x :: x in AddAll(words, ws) <==> x in words || x in ws
    ensures |words| <= |AddAll(words, ws)| <= |words| + |ws|
    decreases |ws|
  {
    if ws != [] {
      AddAllMembers(InsertIfAbsent(words, ws[0]), ws[1..]);
      assert ws == [ws[0]] + ws[1..];
    }
  }

  /** After any run of adds, the earlier list is still there, unchanged and in order, at the back. */
  lemma {:induction false} AddAllKeepsOrder(words: seq<string>, ws: seq<string>)
    ensures |words| <= |AddAll(words, ws)|
    ensures AddAll(words, ws)[|AddAll(words, ws)| - |words|..] == words
    decreases |ws|
  {
    if ws != [] {
      var mid := InsertIfAbsent(words, ws[0]);
      AddAllKeepsOrder(mid, ws[1..]);
      var r := AddAll(words, ws);
      assert r[|r| - |words|..] == r[|r| - |mid|..][|mid| - |words|..];
    }
  }

  /** After any run of adds to a list without duplicates, there are still none. */
  lemma {:induction false} AddAllKeepsDistinct(words: seq<string>, ws: seq<string>)
    requires Distinct(words)
    ensures Distinct(AddAll(words, ws))
    decreases |ws|
  {
    if ws != [] {
      InsertKeepsDistinct(words, ws[0]);
      AddAllKeepsDistinct(InsertIfAbsent(words, ws[0]), ws[1..]);
    }
  }

  /** An absent word added twice grows the list by one, and sits in front. */
  lemma AddTwiceGrowsByOne(words: seq<string>, w: string)
    requires w !in words
    ensures AddAll(words, [w, w]) == [w] + words
    ensures |AddAll(words, [w, w])| == |words| + 1
  {
    assert [w, w][1..] == [w];
    assert AddAll([w] + words, [w]) == AddAll(InsertIfAbsent([w] + words, w), []);
  }

  /** Starting empty, adding "hello", "world", "hello" leaves ["world", "hello"]. */
  lemma HelloWorldHelloList()
    ensures AddAll([], ["hello", "world", "hello"]) == ["world", "hello"]
  {
  }

  /**
   * The startup effect: a stored value that is present and not blank becomes
   * the list as it is; otherwise the current list stays.
   */
  function Seed(stored: Option<Item>, current: seq<string>): (r: seq<string>)
  {
    if stored.Some? && stored.value.Words? then stored.value.list else current
  }

  /**
   * At mount the list is empty; it stays empty exactly when nothing usable is
   * stored, and otherwise becomes the stored list verbatim.
   */
  lemma StartupLoad(stored: Option<Item>)
    ensures Seed(stored, []) == [] <==> stored == None || stored == Some(Blank) || stored == Some(Words([]))
    ensures stored.Some? && stored.value.Words? ==> Seed(stored, []) == stored.value.list
  {
  }

  /** Loading applies no deduplication: a stored list with a repeated word is taken as it is. */
  lemma LoadKeepsDuplicates(w: string)
    ensures Seed(Some(Words([w, w])), []) == [w, w]
    ensures !Distinct(Seed(Some(Words([w, w])), []))
  {
    assert Seed(Some(Words([w, w])), [])[0] == Seed(Some(Words([w, w])), [])[1];
  }

  /** The wordbook component: the in-memory list and the storage it writes through to. */
  class Wordbook {
    var words: seq<string>
    const storage: LocalStorage

    /** The stored copy is exactly the in-memory list. */
    ghost predicate InSync()
      reads this, storage
    {
      storage.GetItem(Key) == Some(Words(words))
    }

    /** Mounting: the list starts empty (`useState([])`); nothing is read yet. */
    constructor (storage: LocalStorage)
      ensures this.storage == storage
      ensures words == []
    {
      this.storage := storage;
      words := [];
    }

    /** The startup effect: seed the list from the stored value, without touching storage. */
    method Load()
      modifies this`words
      ensures words == Seed(storage.GetItem(Key), old(words))
    {
      var stored := storage.GetItem(Key);
      if stored.Some? && stored.value.Words? {
        words := stored.value.list;
      }
    }

    /**
     * `addWord`: an absent word goes to the front and the whole new list is
     * written to storage at once; a present word changes neither copy.
     */
    method AddWord(w: string)
      modifies this`words, storage
      ensures words == InsertIfAbsent(old(words), w)
      ensures w in old(words) ==> words == old(words) && storage.items == old(storage.items)
      ensures w !in old(words) ==> storage.items == old(storage.items)[Key := Words(words)]
      ensures w !in old(words) ==> InSync()
      ensures old(InSync()) ==> InSync()
      ensures Distinct(old(words)) ==> Distinct(words)
    {
      if w !in words {
        var newList := [w] + words;
        words := newList;
        storage.SetItem(Key, Words(newList));
        if Distinct(old(words)) {
          InsertKeepsDistinct(old(words), w);
        }
      }
    }
  }

  /**
   * Starting from empty storage: mount, load, add "hello", "world", "hello";
   * both the list and its stored copy are ["world", "hello"].
   */
  method HelloWorldHello() returns (words: seq<string>, stored: Option<Item>)
    ensures words == ["world", "hello"]
    ensures stored == Some(Words(["world", "hello"]))
  {
    var storage := new LocalStorage(map[]);
    var book := new Wordbook(storage);
    book.Load();
    book.AddWord("hello");
    assert book.words == ["hello"];
    assert "world" != "hello" by { assert "world"[0] != "hello"[0]; }
    book.AddWord("world");
    assert book.words == ["world", "hello"];
    book.AddWord("hello");
    words := book.words;
    stored := storage.GetItem(Key);
  }

  /**
   * Whatever storage held at startup, an add followed by a fresh mount and load
   * over the same storage gives back the same list: the write-through copy and
   * the startup read round-trip.
   */
  method ReloadRoundTrip(initial: map<string, Item>, w: string) returns (first: seq<string>, second: seq<string>)
    ensures first == InsertIfAbsent(Seed(if Key in initial then Some(initial[Key]) else None, []), w)
    ensures second == first
  {
    var storage := new LocalStorage(initial);
    var book := new Wordbook(storage);
    book.Load();
    book.AddWord(w);
    var reopened := new Wordbook(storage);
    reopened.Load();
    first, second := book.words, reopened.words;
  }
}
