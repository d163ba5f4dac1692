/** `getCategoryIcon`: the icon shown beside a transaction, chosen from its
    category by an exact keyword match, then by the first keyword the category
    contains, then a default. */
module CategoryIcons {
  import opened Records
  import opened Text

  datatype Icon = ShoppingCart | Heart | Home | Film | BookOpen | Gift | Briefcase | DollarSign | Coffee | Truck

  datatype Entry = Entry(key: string, icon: Icon)

  /** The keyword table, in declaration order (the order `for...in` visits it). */
  const IconMap: seq<Entry> := [
    Entry("compra", ShoppingCart),
    Entry("mercado", ShoppingCart),
    Entry("supermercado", ShoppingCart),
    Entry("saúde", Heart),
    Entry("farmácia", Heart),
    Entry("moradia", Home),
    Entry("aluguel", Home),
    Entry("lazer", Film),
    Entry("restaurante", Coffee),
    Entry("educação", BookOpen),
    Entry("presente", Gift),
    Entry("salário", Briefcase),
    Entry("transporte", Truck),
    Entry("uber", Truck)
  ]

  const DefaultIcon: Icon := DollarSign

  /** `table[i]` is the first entry whose key `s` contains. */
  predicate FirstMatchAt(table: seq<Entry>, s: string, i: int) {
    0 <= i < |table| && Contains(s, table[i].key)
    && forall j :: 0 <= j < i ==> !Contains(s, table[j].key)
  }

  /** `iconMap[k]`: the icon of the first entry whose key is `k`. */
  function Lookup(table: seq<Entry>, k: string): (r: Option<Icon>)
    ensures r.None? <==> forall i :: 0 <= i < |table| ==> table[i].key != k
    ensures r.Some? ==> exists i :: 0 <= i < |table| && table[i] == Entry(k, r.value)
  {
    if table == [] then None
    else if table[0].key == k then Some(table[0].icon)
    else
      Lookup(table[1..], k)
  }

  /** The `for...in` loop: the icon of the first key that `s` contains. */
  function FirstContained(table: seq<Entry>, s: string): (r: Option<Icon>)
    ensures r.None? <==> forall i :: 0 <= i < |table| ==> !Contains(s, table[i].key)
    ensures r.Some? ==> exists i :: FirstMatchAt(table, s, i) && r.value == table[i].icon
  {
    if table == [] then None
    else if Contains(s, table[0].key) then
      assert FirstMatchAt(table, s, 0);
      Some(table[0].icon)
    else
      var r := FirstContained(table[1..], s);
      if r.Some? then
        var i :| FirstMatchAt(table[1..], s, i) && r.value == table[1..][i].icon;
        assert FirstMatchAt(table, s, i + 1);
        r
      else
        r
  }

  function GetCategoryIcon(category: string): (r: Icon)
    ensures category == "" ==> r == DefaultIcon
  {
    if category == "" then DefaultIcon
    else
      var lower := ToLower(category);
      match Lookup(IconMap, lower)
      case Some(icon) => icon
      case None =>
        match FirstContained(IconMap, lower)
        case Some(icon) => icon
        case None => DefaultIcon
  }

  /** Matching ignores case: a category and its lower-case form get the same icon. */
  lemma CaseInsensitive(category: string)
    ensures GetCategoryIcon(ToLower(category)) == GetCategoryIcon(category)
  {
    ToLowerIdempotent(category);
  }

  /** A category that is a keyword, in any case, gets that keyword's icon. */
  lemma ExactMatch(category: string, i: int)
    requires 0 <= i < |IconMap| && ToLower(category) == IconMap[i].key
    ensures GetCategoryIcon(category) == IconMap[i].icon
  {
    KeysDistinct();
    var r := Lookup(IconMap, ToLower(category));
    var j :| 0 <= j < |IconMap| && IconMap[j] == Entry(ToLower(category), r.value);
    assert category != [] by {
      assert |ToLower(category)| == |category| && IconMap[i].key != [];
    }
  }

  lemma KeysDistinct()
    ensures forall i, j :: 0 <= i < j < |IconMap| ==> IconMap[i].key != IconMap[j].key
  {
  }

  /** The default icon is shown exactly when the category is empty or contains
      none of the keywords (ignoring case). Without an exact match, any other
      icon is that of the first keyword, in table order, that it contains. */
  lemma DefaultIffNoKeyword(category: string)
    ensures GetCategoryIcon(category) == DefaultIcon <==>
              category == "" || forall i :: 0 <= i < |IconMap| ==> !Contains(ToLower(category), IconMap[i].key)
    ensures category != "" && Lookup(IconMap, ToLower(category)).None? && GetCategoryIcon(category) != DefaultIcon ==>
              exists i :: FirstMatchAt(IconMap, ToLower(category), i) && GetCategoryIcon(category) == IconMap[i].icon
  {
    NoDefaultInTable();
    if category != "" {
      var lower := ToLower(category);
      match Lookup(IconMap, lower)
      case Some(icon) =>
        var i :| 0 <= i < |IconMap| && IconMap[i] == Entry(lower, icon);
        ContainsSelf(lower);
      case None =>
        var r := FirstContained(IconMap, lower);
        if r.Some? {
          var i :| FirstMatchAt(IconMap, lower, i) && r.value == IconMap[i].icon;
        }
    }
  }

  lemma NoDefaultInTable()
    ensures forall i :: 0 <= i < |IconMap| ==> IconMap[i].icon != DefaultIcon
  {
  }
}
