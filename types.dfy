/**
 * Record shapes, the category table and the screen enumeration of the
 * focus-timer to-do application (src/types.ts).
 */
module Types {

  datatype Option<+T> = None | Some(value: T)

  /** A focus task. Durations are in whole seconds, counts are sessions.
      `wallpaperIndex` is None when the record was created without that
      field (the add form never supplies it). */
  datatype Todo = Todo(
    id: string,
    name: string,
    category: string,
    color: string,
    totalCount: nat,
    totalDuration: nat,
    wallpaperIndex: Option<int>)

  /** One day's aggregate: number of sessions and their summed seconds. */
  datatype DayStat = DayStat(count: nat, duration: nat)

  /** Aggregate over all tasks; `dailyStats` is keyed by a YYYY-MM-DD date. */
  datatype GlobalStats = GlobalStats(
    totalCount: nat,
    totalDuration: nat,
    dailyStats: map<string, DayStat>)

  /** A category of the fixed table (its icon is presentation only). */
  datatype Category = Category(name: string, color: string)

  /** The screens of the application. */
  datatype Page = List | Add | Edit | Timer | Detail | Stats | Profile

  const AllPages: seq<Page> := [List, Add, Edit, Timer, Detail, Stats, Profile]

  const CATEGORIES: seq<Category> := [
    Category("睡觉", "#64b5f6"),
    Category("工作", "#ffb381"),
    Category("学习", "#fce35a"),
    Category("吃饭", "#7cd7b6"),
    Category("运动", "#ff8b84"),
    Category("娱乐", "#388e3c"),
    Category("休息", "#9575cd"),
    Category("其他", "#9e9e9e")
  ]

  predicate IsHexDigit(c: char) {
    '0' <= c <= '9' || 'a' <= c <= 'f' || 'A' <= c <= 'F'
  }

  /** A `#rrggbb` colour string. */
  predicate IsHexColor(s: string) {
    |s| == 7 && s[0] == '#' && forall i :: 1 <= i < 7 ==> IsHexDigit(s[i])
  }

  predicate NamesDistinct(cats: seq<Category>) {
    forall i, j :: 0 <= i < j < |cats| ==> cats[i].name != cats[j].name
  }

  /** The colour of the first category called `name`, if any. */
  function ColorOf(cats: seq<Category>, name: string): (r: Option<string>)
    ensures r.None? <==> forall i :: 0 <= i < |cats| ==> cats[i].name != name
    ensures r.Some? ==> exists i :: 0 <= i < |cats| && cats[i] == Category(name, r.value)
  {
    if cats == [] then None
    else if cats[0].name == name then Some(cats[0].color)
    else
      var r := ColorOf(cats[1..], name);
      assert r.Some? ==> cats[1..][0] == cats[1];
      r
  }

  /** Looking a category's own name up yields its own colour, because names are distinct. */
  lemma {:induction false} ColorOfMember(cats: seq<Category>, i: nat)
    requires NamesDistinct(cats)
    requires i < |cats|
    ensures ColorOf(cats, cats[i].name) == Some(cats[i].color)
  {
    if i > 0 {
      assert cats[0].name != cats[i].name;
      ColorOfMember(cats[1..], i - 1);
    }
  }

  /** The table has eight pairwise differently named categories, each with a hex colour. */
  lemma CategoriesWellFormed()
    ensures |CATEGORIES| == 8
    ensures NamesDistinct(CATEGORIES)
    ensures forall i :: 0 <= i < |CATEGORIES| ==> IsHexColor(CATEGORIES[i].color)
  {
  }

  /** Every category name resolves to exactly its table colour. */
  lemma CategoryColorLookup(i: nat)
    requires i < |CATEGORIES|
    ensures ColorOf(CATEGORIES, CATEGORIES[i].name) == Some(CATEGORIES[i].color)
  {
    CategoriesWellFormed();
    ColorOfMember(CATEGORIES, i);
  }

  /** Page is a closed set of exactly seven screens. */
  lemma PagesEnumerated(p: Page)
    ensures |AllPages| == 7
    ensures forall i, j :: 0 <= i < j < |AllPages| ==> AllPages[i] != AllPages[j]
    ensures p in AllPages
  {
  }
}
