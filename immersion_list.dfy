/**
 * The list of uploaded immersion files (`Immersion.jsx`): uploading a sheet
 * keeps five cleaned columns of each row and puts the new file first; a
 * finished download remembers its URL on one entry; deletion goes through a
 * confirmation dialog; and every change of the list is written to local
 * storage without the download URLs.
 */
module ImmersionList {
  import opened Wrappers
  import opened JsValues
  import opened JsObject
  import opened GradeSheet

  /** The sheet's column headers the upload reads, in order. */
  const SheetColumns: seq<string> := ["LAST NAME", "FIRST NAME", "MIDDLE NAME", "STRAND", "DEPARTMENT"]

  /** The keys of a cleaned row, in the same order. */
  const CleanKeys: seq<string> := ["Last Name", "First Name", "Middle Name", "Strand", "Department"]

  /** One row of `cleanedData`: each kept column's value, or "" when it is missing or falsy. */
  function CleanRow(row: Obj<Value>): Obj<Value> {
    seq(5, i requires 0 <= i < 5 => (CleanKeys[i], Or(GetValue(row, SheetColumns[i]), Text(""))))
  }

  /** `cleanedData`: one cleaned row per sheet row, in order. */
  function CleanRows(sheet: seq<Obj<Value>>): (rows: seq<Obj<Value>>)
    ensures |rows| == |sheet|
    ensures forall i :: 0 <= i < |sheet| ==> rows[i] == CleanRow(sheet[i])
  {
    seq(|sheet|, i requires 0 <= i < |sheet| => CleanRow(sheet[i]))
  }

  lemma CleanKeysDistinct()
    ensures forall i, j :: 0 <= i < j < 5 ==> CleanKeys[i] != CleanKeys[j]
  {
  }

  /**
   * A cleaned row has exactly the five keys, each once, and under each key
   * the sheet's value for the matching column, or "" when that is missing or
   * falsy; so no cleaned value is missing.
   */
  lemma CleanRowSpec(row: Obj<Value>)
    ensures Keys(CleanRow(row)) == CleanKeys && UniqueKeys(CleanRow(row))
    ensures forall i :: 0 <= i < 5 ==>
      Get(CleanRow(row), CleanKeys[i]) == Some(Or(GetValue(row, SheetColumns[i]), Text("")))
    ensures forall i :: 0 <= i < 5 ==> CleanRow(row)[i].1 != Missing
  {
    var r := CleanRow(row);
    CleanKeysDistinct();
    assert Keys(r) == CleanKeys;
    forall i | 0 <= i < 5
      ensures Get(r, CleanKeys[i]) == Some(Or(GetValue(row, SheetColumns[i]), Text("")))
    {
      assert Find(r, CleanKeys[i]) == i;
    }
  }

  // ================================================================ entries

  /** An entry of `data`; `downloadUrl` is set only after a successful download. */
  datatype Entry = Entry(fileName: string, date: string, content: seq<Obj<Value>>, downloadUrl: Option<string>)

  /** An entry as local storage keeps it: without a download URL. */
  datatype StoredEntry = StoredEntry(fileName: string, date: string, content: seq<Obj<Value>>)

  /** `({ downloadUrl, ...rest }) => rest`. */
  function Stored(e: Entry): StoredEntry {
    StoredEntry(e.fileName, e.date, e.content)
  }

  /** What the effect writes to local storage for a list. */
  function Persisted(data: seq<Entry>): (s: seq<StoredEntry>)
    ensures |s| == |data|
    ensures forall i :: 0 <= i < |data| ==> s[i] == Stored(data[i])
  {
    seq(|data|, i requires 0 <= i < |data| => Stored(data[i]))
  }

  /** The list the page starts from after reading local storage. */
  function Loaded(stored: seq<StoredEntry>): (data: seq<Entry>)
    ensures |data| == |stored|
    ensures forall i :: 0 <= i < |stored| ==> data[i].downloadUrl == None
  {
    seq(|stored|, i requires 0 <= i < |stored| => Entry(stored[i].fileName, stored[i].date, stored[i].content, None))
  }

  /** Loading what was stored and storing it again writes back exactly what was read. */
  lemma PersistLoaded(stored: seq<StoredEntry>)
    ensures Persisted(Loaded(stored)) == stored
  {
  }

  /** Storing a list and loading it back yields the same list with every download URL dropped. */
  lemma LoadPersisted(data: seq<Entry>)
    ensures |Loaded(Persisted(data))| == |data|
    ensures forall i :: 0 <= i < |data| ==> Loaded(Persisted(data))[i] == data[i].(downloadUrl := None)
  {
  }

  /** `data.filter((_, idx) => idx !== t)`. */
  function Without<T>(s: seq<T>, t: int): seq<T> {
    if s == [] then []
    else Without(s[..|s| - 1], t) + (if |s| - 1 == t then [] else [s[|s| - 1]])
  }

  /** The filter removes exactly the element at `t`, keeping the others in order; with no element at `t` it removes nothing. */
  lemma {:induction false} WithoutSpec<T>(s: seq<T>, t: int)
    ensures Without(s, t) == if 0 <= t < |s| then s[..t] + s[t + 1..] else s
  {
    if s != [] {
      var n := |s|;
      WithoutSpec(s[..n - 1], t);
      if t == n - 1 {
        assert s[..n - 1][..t] == s[..t];
        assert s[t + 1..] == [];
      } else if 0 <= t < n - 1 {
        assert s[..n - 1][..t] == s[..t];
        assert s[..n - 1][t + 1..] + [s[n - 1]] == s[t + 1..];
      } else {
        assert s[..n - 1] + [s[n - 1]] == s;
      }
    }
  }

  /** `prevData.map((item, i) => i === index ? { ...item, downloadUrl: url } : item)`. */
  function WithUrl(data: seq<Entry>, index: int, url: string): (r: seq<Entry>)
    ensures |r| == |data|
  {
    seq(|data|, i requires 0 <= i < |data| => if i == index then data[i].(downloadUrl := Some(url)) else data[i])
  }

  /**
   * Remembering a download URL changes only the entry at `index`, and only
   * its URL, so what local storage holds does not change.
   */
  lemma WithUrlSpec(data: seq<Entry>, index: int, url: string)
    ensures forall i :: 0 <= i < |data| && i != index ==> WithUrl(data, index, url)[i] == data[i]
    ensures 0 <= index < |data| ==> WithUrl(data, index, url)[index].downloadUrl == Some(url)
    ensures Persisted(WithUrl(data, index, url)) == Persisted(data)
  {
  }

  // ================================================================ the page

  /** The page's state, and local storage's "immersionData" item. */
  class ImmersionPage {
    var data: seq<Entry>
    var showDeleteConfirm: bool
    var deleteTargetIndex: Option<int>
    var storage: seq<StoredEntry>

    /** Local storage holds the list without its download URLs, as the effect leaves it after every change. */
    ghost predicate Valid()
      reads this
    {
      storage == Persisted(data)
    }

    /** The initial state, from what local storage held (`None`: nothing). */
    constructor (saved: Option<seq<StoredEntry>>)
      ensures data == Loaded(saved.GetOr([]))
      ensures !showDeleteConfirm && deleteTargetIndex == None
      ensures Valid() && storage == saved.GetOr([])
    {
      data := Loaded(saved.GetOr([]));
      showDeleteConfirm := false;
      deleteTargetIndex := None;
      storage := saved.GetOr([]);
      PersistLoaded(saved.GetOr([]));
    }

    /**
     * `handleFileUpload` once the reader has parsed the sheet: no file or a
     * sheet without data rows changes nothing; otherwise the new entry, with
     * the cleaned rows, comes first and the old entries follow in order.
     */
    method UploadSheet(fileName: Option<string>, date: string, sheet: seq<Obj<Value>>)
      requires Valid()
      modifies this
      ensures Valid()
      ensures data == if fileName.None? || sheet == [] then old(data)
                      else [Entry(fileName.value, date, CleanRows(sheet), None)] + old(data)
      ensures showDeleteConfirm == old(showDeleteConfirm) && deleteTargetIndex == old(deleteTargetIndex)
    {
      if fileName.None? {
        return;
      }
      if |sheet| == 0 {
        return;
      }
      var cleaned := CleanRows(sheet);
      var newEntry := Entry(fileName.value, date, cleaned, None);
      data := [newEntry] + data;
      storage := Persisted(data);
    }

    /** The download's success handler: the entry at `index` remembers the file's URL. */
    method DownloadSucceeded(index: int, url: string)
      requires Valid()
      modifies this
      ensures Valid()
      ensures data == WithUrl(old(data), index, url) && storage == old(storage)
      ensures showDeleteConfirm == old(showDeleteConfirm) && deleteTargetIndex == old(deleteTargetIndex)
    {
      WithUrlSpec(data, index, url);
      data := WithUrl(data, index, url);
      storage := Persisted(data);
    }

    /** `confirmDelete(index)`: remember the target and open the dialog. */
    method ConfirmDelete(index: int)
      modifies this
      ensures deleteTargetIndex == Some(index) && showDeleteConfirm
      ensures data == old(data) && storage == old(storage)
    {
      deleteTargetIndex := Some(index);
      showDeleteConfirm := true;
    }

    /** The dialog's Cancel: close it, keeping the target. */
    method CancelDelete()
      modifies this
      ensures !showDeleteConfirm
      ensures deleteTargetIndex == old(deleteTargetIndex) && data == old(data) && storage == old(storage)
    {
      showDeleteConfirm := false;
    }

    /**
     * `deleteRow`: with a target, drop the entry at that position (keeping
     * the others in order), clear the target and close the dialog; without
     * one, nothing happens.
     */
    method DeleteRow()
      requires Valid()
      modifies this
      ensures Valid()
      ensures old(deleteTargetIndex).None? ==>
        data == old(data) && showDeleteConfirm == old(showDeleteConfirm) && deleteTargetIndex == None
      ensures old(deleteTargetIndex).Some? ==>
        var t := old(deleteTargetIndex).value;
        data == (if 0 <= t < |old(data)| then old(data)[..t] + old(data)[t + 1..] else old(data))
        && deleteTargetIndex == None && !showDeleteConfirm
    {
      if deleteTargetIndex.Some? {
        var t := deleteTargetIndex.value;
        WithoutSpec(data, t);
        data := Without(data, t);
        storage := Persisted(data);
        deleteTargetIndex := None;
        showDeleteConfirm := false;
      }
    }
  }
}
