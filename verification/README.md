# CrossDict: wordbook and dictionary panel

A model of the two stateful parts of CrossDict, a browser dictionary,
translation and word-list app, all of whose components live in `dic.js`:

- **Wordbook** (`Wordbook`, `dic.js:231-258`): the user's saved words, newest
  first and without duplicates. At mount the list is seeded from the
  `'wordbook'` key of `localStorage`. `addWord` puts a word in front only when
  the list does not already hold it (exact string match) and writes the whole
  new list back to that key at once.
- **Dictionary panel** (`Dictionary`, `dic.js:141-173`): it holds an optional
  opened dictionary, the query and the shown entry text. `handleFile` opens the
  first chosen file with the external `mdict-parser` and replaces the
  dictionary only if that succeeds. `lookup` does nothing without a dictionary.
  Otherwise it shows the entry's `html`, or `未找到` ("not found") when the
  result or its `html` is missing or empty.

Files:

- `wrappers.dfy`: `Option`, standing for JavaScript's `null`/`undefined`.
- `storage.dfy`: `localStorage` as a class over a map from keys to items.
- `wordbook.dfy`: the pure insert-if-absent step, a fold over a run of adds,
  the startup seeding, and lemmas about them. It also holds the `Wordbook`
  class, whose methods are proved against those functions, and two scenarios.
- `dictionary.dfy`: the lookup-result-to-text mapping, the `Dictionary` class
  and two scenarios.

The external parser appears as given functions. Opening a file is a
`File -> Option<Handle>` passed to `HandleFile`, where `None` means the parser
failed. A dictionary's lookup is the `lookup: string -> LookupResult` inside
its `Handle`.

Points of the code's behaviour that the model keeps as they are:

- A lookup without a dictionary returns early (`dic.js:155`), so the shown
  text keeps whatever it held.
- Nothing orders the mount effect that loads the wordbook (`dic.js:234-237`)
  before `addWord` (`dic.js:239-245`). `Load` and `AddWord` are therefore
  separate methods, and `AddWord`'s contract holds whatever the current list is.
- An entry whose `html` is missing or empty shows `未找到`, because JavaScript's
  `||` treats `""` as false (`dic.js:157`). An `html` that is literally `未找到`
  shows that same text, so the shown text is `NotFound` exactly when one of
  those cases holds (`Display`).

## Model

| member | source | states |
|---|---|---|
| `WordbookStore.InsertIfAbsent` | dic.js:239-245 | the new list contains `w` and otherwise exactly the old words; it is one longer iff `w` was absent; the old list survives unchanged as its suffix; an absent `w` is at index 0 |
| `WordbookStore.InsertCharacterised` | dic.js:240-241 | any list with the length, suffix and front properties above is the insert-if-absent result, so those properties specify `addWord` completely |
| `WordbookStore.InsertIdempotent` | dic.js:240 | adding a word already present leaves the list unchanged, so adding the same word twice equals adding it once |
| `WordbookStore.InsertKeepsDistinct` | dic.js:240-241 | a list without duplicates has none after an add |
| `WordbookStore.AddAllMembers` | dic.js:239-245 | after any run of adds the saved words are exactly the earlier words plus the added ones; the length grows by at most the number of adds |
| `WordbookStore.AddAllKeepsOrder` | dic.js:241 | after any run of adds the earlier list is still the suffix of the list, in its original order |
| `WordbookStore.AddAllKeepsDistinct` | dic.js:240-241 | after any run of adds to a duplicate-free list, no word occurs twice |
| `WordbookStore.AddTwiceGrowsByOne` | dic.js:240-241 | adding an absent word twice gives `[w] + old`, one longer, not two |
| `WordbookStore.HelloWorldHelloList` | dic.js:239-245 | from empty, adding "hello", "world", "hello" gives `["world", "hello"]` |
| `WordbookStore.StartupLoad` | dic.js:234-237 | from the empty initial list, loading leaves it empty iff the key is missing, blank or holds the empty list; a stored list is taken verbatim |
| `WordbookStore.LoadKeepsDuplicates` | dic.js:236 | loading applies no deduplication: a stored `[w, w]` becomes the list as it is |
| `WordbookStore.Wordbook.constructor` | dic.js:232 | the list starts empty over the given storage |
| `WordbookStore.Wordbook.Load` | dic.js:234-237 | the list becomes the seeded value of what the `'wordbook'` key holds; storage is not written |
| `WordbookStore.Wordbook.AddWord` | dic.js:239-245 | the list becomes insert-if-absent of the old list; a present word changes neither the list nor storage; an absent one rewrites only the `'wordbook'` key, to the new list, so the copies are in sync; being in sync and being duplicate-free are both preserved |
| `WordbookStore.HelloWorldHello` | dic.js:239-245 | mounting over empty storage, loading and adding "hello", "world", "hello" leaves the list and its stored copy both `["world", "hello"]` |
| `WordbookStore.ReloadRoundTrip` | dic.js:234-245 | for any initial storage and word, the list after load-then-add equals the list a fresh mount loads from the same storage |
| `BrowserStorage.LocalStorage.SetItem` | dic.js:243 | `setItem` overwrites one key and no other: a read of that key right after gives back the written item, and every other key reads as before |
| `DictionaryPanel.OnlyFirstFileCounts` | dic.js:147 | only the first file of a selection is used, whatever follows it; an absent or empty selection yields no file |
| `DictionaryPanel.Display` | dic.js:157 | the shown text is never blank; it is the entry's html when that is present and non-empty; it is the not-found text iff the result or its html is missing or empty, or the html is that text itself |
| `DictionaryPanel.Dictionary.constructor` | dic.js:142-144 | the panel starts with no dictionary, an empty query and an empty entry |
| `DictionaryPanel.Dictionary.SetQuery` | dic.js:165 | typing sets the query and nothing else |
| `DictionaryPanel.Dictionary.HandleFile` | dic.js:146-152 | the status reports no file iff nothing was chosen and a parse failure iff the parser rejected the first file; the dictionary is replaced by the parsed one only on success and is left as it was otherwise |
| `DictionaryPanel.Dictionary.Lookup` | dic.js:154-158 | without a dictionary the shown text is unchanged; with one it becomes the display of the dictionary's result for the query; dictionary and query never change |
| `DictionaryPanel.FailedLoadKeepsDictionary` | dic.js:146-158 | after a successful open and a failed one, the failure is reported and a lookup is still answered by the first dictionary |
| `DictionaryPanel.LookupWithoutDictionary` | dic.js:154-155 | a lookup before any dictionary is opened leaves the shown text empty |

## Left out

- `parseMdx` and the `mdict-parser` library (`dic.js:106-113`): not part of this model. Opening a file is a given function that may fail, and a dictionary's lookup is a given function from term to result. That function is total, so the model drops the case where `await dict.lookup(query)` (`dic.js:156`) rejects: in the code `setEntry` is then never reached, `entry` keeps its old value and the rejection goes unhandled.
- `translateText` and `Translator` (`dic.js:115-134`, `175-226`): HTTP calls to remote translation services, environment secrets and a busy flag, with no logic of their own.
- `playPronunciation` (`dic.js:170`): a fire-and-forget audio call into the parser.
- JSON encoding: the stored value is kept as the decoded list of strings (`Item`). Three startup cases of `dic.js:235-236` are therefore not modelled:
  - stored text that is not empty and not valid JSON, on which `JSON.parse` throws;
  - valid JSON that is not an array of strings. `null` or an object is stored in the list state as it is, and the render's `words.map` (`dic.js:251`) then throws. An array of non-strings is taken as it is;
  - `localStorage.getItem` itself throwing, for example when storage is blocked.
- Storage write failures: `localStorage.setItem` throwing, for example on a full quota, is not modelled. In the code the in-memory list is set before the write, so such a failure would leave the two copies apart.
- Asynchrony: awaiting the parser, React's deferred state updates, the `words` value captured by `addWord`'s closure, and interleaved events. Each method applies its whole effect at once, in call order.
- Rendering, styling, the page composition (`dic.js:260-288`), configuration files and the package-name test (`dic.js:27-103`, `290-297`).
