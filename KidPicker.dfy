/** The child picker of the spreadsheet app (app.py, lines 197-208): the
    active kids become "name（grade）" labels mapped to their ids, and the
    chosen caption is cut back to the name at the first full-width
    parenthesis. */
module KidPicker {
  import opened Text
  import opened Filtering

  /** A row of the "kids" worksheet, every cell as text. */
  datatype KidRow = KidRow(id: string, name: string, grade: string, active: string)

  /** A kid is listed iff the lower-cased `active` text is exactly "true". */
  predicate IsListed(k: KidRow)
  {
    Lower(k.active) == "true"
  }

  function ListedKids(kids: seq<KidRow>): seq<KidRow>
  {
    Filter(kids, IsListed)
  }

  /** The picker caption `name（grade）`. */
  function Label(name: string, grade: string): string
  {
    name + "（" + grade + "）"
  }

  /** `caption.split("（")[0]`: the text before the first full-width
      opening parenthesis. */
  function NameOfLabel(caption: string): string
  {
    Split(caption, '（')[0]
  }

  /** The name is recovered from its caption whenever it holds no full-width
      opening parenthesis itself. */
  lemma LabelRoundTrip(name: string, grade: string)
    requires '（' !in name
    ensures NameOfLabel(Label(name, grade)) == name
  {
    SplitFirst(name, grade + "）", '（');
    assert Label(name, grade) == name + ['（'] + (grade + "）");
  }

  /** The caption-to-id map; a later kid with the same caption overwrites an
      earlier one, as a dict comprehension does. */
  function KidMap(kids: seq<KidRow>): map<string, string>
  {
    if kids == [] then map[]
    else
      var k := kids[|kids| - 1];
      KidMap(kids[..|kids| - 1])[Label(k.name, k.grade) := k.id]
  }

  /** The map has one key per caption of the given kids, and each key leads to
      the id of the last kid carrying that caption. */
  lemma {:induction false} KidMapLookup(kids: seq<KidRow>, i: nat)
    requires i < |kids|
    requires forall j :: i < j < |kids| ==> Label(kids[j].name, kids[j].grade) != Label(kids[i].name, kids[i].grade)
    ensures Label(kids[i].name, kids[i].grade) in KidMap(kids)
    ensures KidMap(kids)[Label(kids[i].name, kids[i].grade)] == kids[i].id
  {
    var n := |kids| - 1;
    if i < n {
      KidMapLookup(kids[..n], i);
    }
  }

  /** Every key of the map is the caption of one of the kids, and its id that
      kid's id. */
  lemma {:induction false} KidMapKeys(kids: seq<KidRow>, caption: string)
    requires caption in KidMap(kids)
    ensures exists j :: 0 <= j < |kids| && Label(kids[j].name, kids[j].grade) == caption
                        && KidMap(kids)[caption] == kids[j].id
  {
    var n := |kids| - 1;
    var k := kids[n];
    if Label(k.name, k.grade) != caption {
      KidMapKeys(kids[..n], caption);
      var j :| 0 <= j < n && Label(kids[..n][j].name, kids[..n][j].grade) == caption
               && KidMap(kids[..n])[caption] == kids[..n][j].id;
      assert kids[j] == kids[..n][j];
    }
  }

  /** The listed kids are exactly the kids whose `active` cell reads "true". */
  lemma ListedKidsMembers(kids: seq<KidRow>, k: KidRow)
    ensures k in ListedKids(kids) <==> k in kids && Lower(k.active) == "true"
  {
    FilterMembers(kids, IsListed, k);
  }
}
