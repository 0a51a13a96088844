/**
 * The dictionary panel: it holds at most one opened dictionary, the query
 * typed by the user and the text shown for the last lookup. Opening a
 * dictionary file and looking a term up are done by an external parser,
 * which the model takes as given functions.
 */
module DictionaryPanel {
  import opened Wrappers

  /** The text shown when a lookup finds nothing: "未找到" ("not found"). */
  const NotFound := "\U{672A}\U{627E}\U{5230}"

  /** What the parser's lookup yields for a term: no entry, or an entry whose `html` may be missing. */
  datatype LookupResult = NoEntry | Entry(html: Option<string>)

  /** An opened dictionary, seen only through the parser's lookup. */
  datatype Handle = Handle(lookup: string -> LookupResult)

  /** A file from the file picker. */
  datatype File = File(name: string, content: seq<bv8>)

  /**
   * How a file selection ends: nothing chosen, a dictionary opened, or the
   * parser gave up. `ParseFailure` stands for the rejected promise that
   * `handleFile` yields when the parser throws; in the other two cases the
   * handler resolves to nothing, so `NoFileChosen` and `Loaded` are told apart
   * only by the model, not by the caller of `handleFile`.
   */
  datatype LoadStatus = NoFileChosen | Loaded | ParseFailure

  /** The first selected file, if the picker returned a non-empty selection. */
  function FirstFile(files: Option<seq<File>>): Option<File>
  {
    if files.Some? && |files.value| > 0 then Some(files.value[0]) else None
  }

  /**
   * Only the first file of a selection matters: what follows it is ignored,
   * and an absent or empty selection yields no file.
   */
  lemma OnlyFirstFileCounts(f: File, rest: seq<File>)
    ensures FirstFile(Some([f] + rest)) == Some(f)
    ensures FirstFile(Some([f] + rest)) == FirstFile(Some([f]))
    ensures FirstFile(Some([])) == None && FirstFile(None) == None
  {
  }

  /**
   * The text shown for a lookup result: its html when there is one and it is
   * not empty, the not-found text otherwise. The shown text is never blank.
   */
  function Display(result: LookupResult): (s: string)
    ensures s != ""
    ensures s == NotFound || (result.Entry? && result.html == Some(s))
    ensures result.Entry? && result.html.Some? && result.html.value != "" ==> s == result.html.value
    ensures s == NotFound <==> result.NoEntry? || result.html.None? || result.html.value in {"", NotFound}
  {
    if result.Entry? && result.html.Some? && result.html.value != "" then result.html.value else NotFound
  }

  class Dictionary {
    var dict: Option<Handle>
    var query: string
    var entry: string

    /** Mounting: no dictionary, empty query, nothing shown. */
    constructor ()
      ensures dict.None? && query == "" && entry == ""
    {
      dict, query, entry := None, "", "";
    }

    /** Typing in the query box. */
    method SetQuery(q: string)
      modifies this`query
      ensures query == q
    {
      query := q;
    }

    /**
     * `handleFile`: when a file was chosen and the parser opened it, the new
     * dictionary replaces the old one; with no file, or when the parser fails,
     * the old dictionary stays. The returned status is a modelling device (see
     * `LoadStatus`): `ParseFailure` is the handler's rejected promise.
     */
    method HandleFile(files: Option<seq<File>>, parse: File -> Option<Handle>) returns (status: LoadStatus)
      modifies this`dict
      ensures status == NoFileChosen <==> FirstFile(files).None?
      ensures status == ParseFailure <==> FirstFile(files).Some? && parse(FirstFile(files).value).None?
      ensures status == Loaded ==> dict == parse(FirstFile(files).value)
      ensures status != Loaded ==> dict == old(dict)
    {
      var file := FirstFile(files);
      if file.None? {
        return NoFileChosen;
      }
      var d := parse(file.value);
      if d.None? {
        return ParseFailure;
      }
      dict := d;
      status := Loaded;
    }

    /**
     * `lookup`: without a dictionary nothing happens; with one, the shown text
     * becomes the display of what the dictionary returns for the query.
     */
    method Lookup()
      modifies this`entry
      ensures dict.None? ==> entry == old(entry)
      ensures dict.Some? ==> entry == Display(dict.value.lookup(query))
    {
      if dict.None? {
        return;
      }
      var result := dict.value.lookup(query);
      entry := Display(result);
    }
  }

  /**
   * A dictionary is opened, a second file fails to parse, and the query is
   * looked up: the failure is reported and the lookup is answered by the
   * dictionary opened first.
   */
  method FailedLoadKeepsDictionary(h: Handle, good: File, bad: File, parse: File -> Option<Handle>, q: string)
    returns (first: LoadStatus, second: LoadStatus, shown: string)
    requires parse(good) == Some(h) && parse(bad) == None
    ensures first == Loaded && second == ParseFailure
    ensures shown == Display(h.lookup(q))
  {
    var panel := new Dictionary();
    first := panel.HandleFile(Some([good]), parse);
    second := panel.HandleFile(Some([bad]), parse);
    panel.SetQuery(q);
    panel.Lookup();
    shown := panel.entry;
  }

  /** Looking up before any dictionary is opened leaves the shown text blank. */
  method LookupWithoutDictionary(q: string) returns (shown: string)
    ensures shown == ""
  {
    var panel := new Dictionary();
    panel.SetQuery(q);
    panel.Lookup();
    shown := panel.entry;
  }
}
