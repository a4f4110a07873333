/**
 * The add/edit form of src/App.tsx (`TodoForm`): its initial field values,
 * the `name.trim()` guard on the save button, and the merge of the form's
 * fields into the selected task on the edit path.
 */
module TodoForm {
  import opened Types
  import opened TodoList

  /** What the form hands to its `onSave`: `{ name, category, color }`. */
  datatype FormData = FormData(name: string, category: string, color: string)

  /** The characters `String.prototype.trim` strips: ECMAScript WhiteSpace
      (tab, vertical tab, form feed, space, no-break space, byte order mark and
      the space separators) and LineTerminator. */
  predicate IsTrimmed(c: char) {
    var n := c as int;
    n == 0x09 || n == 0x0B || n == 0x0C || n == 0x20 || n == 0xA0 || n == 0xFEFF
    || n == 0x1680 || 0x2000 <= n <= 0x200A || n == 0x202F || n == 0x205F || n == 0x3000
    || n == 0x0A || n == 0x0D || n == 0x2028 || n == 0x2029
  }

  function TrimStart(s: string): (r: string)
    ensures |r| <= |s| && r == s[|s| - |r|..]
    ensures forall i :: 0 <= i < |s| - |r| ==> IsTrimmed(s[i])
    ensures r != [] ==> !IsTrimmed(r[0])
  {
    if s != [] && IsTrimmed(s[0]) then
      var r := TrimStart(s[1..]);
      assert s[1..][|s[1..]| - |r|..] == s[|s| - |r|..];
      r
    else s
  }

  function TrimEnd(s: string): (r: string)
    ensures |r| <= |s| && r == s[..|r|]
    ensures forall i :: |r| <= i < |s| ==> IsTrimmed(s[i])
    ensures r != [] ==> !IsTrimmed(r[|r| - 1])
  {
    if s != [] && IsTrimmed(s[|s| - 1]) then
      var r := TrimEnd(s[..|s| - 1]);
      assert s[..|s| - 1][..|r|] == s[..|r|];
      r
    else s
  }

  /** Only whitespace lies outside `s[i..j]`. */
  predicate WhitespaceOutside(s: string, i: int, j: int) {
    0 <= i <= j <= |s|
    && (forall k :: 0 <= k < i ==> IsTrimmed(s[k]))
    && (forall k :: j <= k < |s| ==> IsTrimmed(s[k]))
  }

  /** `s.trim()`: the slice of `s` left after dropping whitespace at both ends
      only. It is empty exactly when `s` is all whitespace, and otherwise starts
      and ends with a kept character. */
  function Trim(s: string): (r: string)
    ensures exists i, j :: WhitespaceOutside(s, i, j) && r == s[i..j]
    ensures r == [] <==> forall i :: 0 <= i < |s| ==> IsTrimmed(s[i])
    ensures r != [] ==> !IsTrimmed(r[0]) && !IsTrimmed(r[|r| - 1])
  {
    var a := TrimStart(s);
    var r := TrimEnd(a);
    TrimSlice(s, a, r);
    r
  }

  /** Dropping a whitespace prefix (giving `a`) and then a whitespace suffix
      (giving `r`) leaves a slice of `s` with only whitespace around it, empty
      exactly when `s` is all whitespace. */
  lemma TrimSlice(s: string, a: string, r: string)
    requires |a| <= |s| && a == s[|s| - |a|..] && forall k :: 0 <= k < |s| - |a| ==> IsTrimmed(s[k])
    requires a != [] ==> !IsTrimmed(a[0])
    requires |r| <= |a| && r == a[..|r|] && forall k :: |r| <= k < |a| ==> IsTrimmed(a[k])
    ensures exists i, j :: WhitespaceOutside(s, i, j) && r == s[i..j]
    ensures r == [] <==> forall k :: 0 <= k < |s| ==> IsTrimmed(s[k])
  {
    var i := |s| - |a|;
    var j := i + |r|;
    assert s[i..j] == a[..|r|];
    forall k | j <= k < |s| ensures IsTrimmed(s[k]) {
      assert s[k] == a[k - i];
    }
    assert WhitespaceOutside(s, i, j);
    if r != [] {
      assert s[i] == r[0];
    }
  }

  /** The save button is enabled exactly when the name holds a character that
      `trim` keeps (src/App.tsx:495). */
  predicate CanSave(name: string): (b: bool)
    ensures b <==> exists i :: 0 <= i < |name| && !IsTrimmed(name[i])
  {
    Trim(name) != ""
  }

  /** The form's starting values (src/App.tsx:435-437). `||` falls back on an
      empty string, so a task with an empty category or colour starts the form on
      the first category. */
  function InitialForm(initial: Option<Todo>): (f: FormData)
    ensures initial.None? ==> f == FormData("", CATEGORIES[0].name, CATEGORIES[0].color)
    ensures initial.Some? ==> f.name == initial.value.name
    ensures initial.Some? && initial.value.category != "" ==> f.category == initial.value.category
    ensures initial.Some? && initial.value.category == "" ==> f.category == CATEGORIES[0].name
    ensures initial.Some? && initial.value.color != "" ==> f.color == initial.value.color
    ensures initial.Some? && initial.value.color == "" ==> f.color == CATEGORIES[0].color
  {
    match initial
    case None => FormData("", CATEGORIES[0].name, CATEGORIES[0].color)
    case Some(t) =>
      FormData(t.name,
               if t.category != "" then t.category else CATEGORIES[0].name,
               if t.color != "" then t.color else CATEGORIES[0].color)
  }

  /** A fresh form cannot be saved until a name is typed. */
  lemma NewFormBlocked()
    ensures !CanSave(InitialForm(None).name)
  {
  }

  /** Picking a category in the form sets its name and colour together. */
  function PickCategory(f: FormData, i: nat): (g: FormData)
    requires i < |CATEGORIES|
    ensures g.name == f.name && g.category == CATEGORIES[i].name
    ensures ColorOf(CATEGORIES, g.category) == Some(g.color)
  {
    CategoryColorLookup(i);
    f.(category := CATEGORIES[i].name, color := CATEGORIES[i].color)
  }

  /** `{ ...selectedTodo, ...data }` (src/App.tsx:313): the form's three fields
      over the selected task, everything else kept. */
  function MergeEdit(selected: Todo, data: FormData): (t: Todo)
    ensures t.name == data.name && t.category == data.category && t.color == data.color
    ensures t.id == selected.id && t.wallpaperIndex == selected.wallpaperIndex
    ensures t.totalCount == selected.totalCount && t.totalDuration == selected.totalDuration
  {
    selected.(name := data.name, category := data.category, color := data.color)
  }

  /** Saving an edit form left as it was opened gives back the same task. */
  lemma UnchangedEditIsIdentity(t: Todo)
    requires t.category != "" && t.color != ""
    ensures MergeEdit(t, InitialForm(Some(t))) == t
  {
  }

  /** `handleAddTodo(data as any)` (src/App.tsx:315): the draft built from the
      form has no wallpaper index. */
  function DraftOf(data: FormData): (d: TodoDraft)
    ensures d.name == data.name && d.category == data.category && d.color == data.color
    ensures d.wallpaperIndex.None?
  {
    TodoDraft(data.name, data.category, data.color, None)
  }

  /** With unique ids, saving an edit of the found task leaves every session counter of the list unchanged. */
  lemma EditKeepsSums(todos: seq<Todo>, id: string, data: FormData)
    requires UniqueIds(todos) && Find(todos, id).Some?
    ensures var r := Update(todos, MergeEdit(Find(todos, id).value, data));
      SumCounts(r) == SumCounts(todos) && SumDurations(r) == SumDurations(todos)
  {
    var k := FindIndex(todos, id).value;
    var merged := MergeEdit(todos[k], data);
    forall i | 0 <= i < |todos| && todos[i].id == merged.id
      ensures todos[i].totalCount == merged.totalCount && todos[i].totalDuration == merged.totalDuration
    {
      assert i == k;
    }
    UpdateSameCounters(todos, merged);
  }
}
