/** The slash-command menu: which items a query shows, the highlighted
    item, and the block the command will replace. */
module SlashMenu {
  import opened Wrappers
  import opened Text

  /** A menu entry: its label text and its data-type. */
  datatype SlashItem = SlashItem(name: string, blockType: string)

  /** open: the menu is shown; visible: which items are not hidden;
      active: slashActiveIndex, a position among the visible items;
      anchor: slashRange, the block the last slash input came from. */
  datatype Menu = Menu(open: bool, visible: seq<bool>, active: int, anchor: Option<nat>)

  /** `!query || label.toLowerCase().includes(query)` */
  predicate Matches(name: string, query: string)
  {
    query == "" || Contains(Lower(name), query)
  }

  function Shown(catalog: seq<SlashItem>, query: string): (v: seq<bool>)
    ensures |v| == |catalog|
    ensures forall i :: 0 <= i < |catalog| ==> (v[i] <==> Matches(catalog[i].name, query))
  {
    seq(|catalog|, i requires 0 <= i < |catalog| => Matches(catalog[i].name, query))
  }

  /** The number of visible items. */
  function CountShown(v: seq<bool>): (n: nat)
    ensures n <= |v|
    ensures n == 0 <==> forall i :: 0 <= i < |v| ==> !v[i]
  {
    if v == [] then 0 else (if v[0] then 1 else 0) + CountShown(v[1..])
  }

  lemma {:induction false} CountShownAppend(v: seq<bool>, b: bool)
    ensures CountShown(v + [b]) == CountShown(v) + (if b then 1 else 0)
  {
    if v != [] {
      assert (v + [b])[1..] == v[1..] + [b];
      CountShownAppend(v[1..], b);
    } else {
      assert v + [b] == [b];
    }
  }

  /** The position in the full list of the k-th visible item:
      `querySelectorAll('.slash-item:not(.hidden)')[k]`. */
  function NthShown(v: seq<bool>, k: nat): (i: nat)
    requires k < CountShown(v)
    ensures i < |v| && v[i] && CountShown(v[..i]) == k
  {
    assert v != [];
    if v[0] then
      if k == 0 then (assert v[..0] == []; 0)
      else
        var j := NthShown(v[1..], k - 1);
        assert v[..j + 1] == [v[0]] + v[1..][..j];
        j + 1
    else
      var j := NthShown(v[1..], k);
      assert v[..j + 1] == [v[0]] + v[1..][..j];
      j + 1
  }

  /** The menu is shown only with at least one visible item, and the highlight is on one of them. */
  predicate MenuOk(m: Menu, catalog: seq<SlashItem>)
  {
    |m.visible| == |catalog| &&
    (m.open ==> 0 <= m.active < CountShown(m.visible))
  }

  /** Before the first slash: nothing hidden, nothing open. */
  function Initial(catalog: seq<SlashItem>): (m: Menu)
    ensures MenuOk(m, catalog) && !m.open && m.anchor.None?
  {
    Menu(false, seq(|catalog|, _ => true), 0, None)
  }

  /** hideSlashMenu: the menu closes and forgets its block. */
  function Hide(m: Menu): (r: Menu)
    ensures !r.open && r.anchor.None?
    ensures r.visible == m.visible && r.active == m.active
  {
    m.(open := false, anchor := None)
  }

  /** showSlashMenu(query): items are filtered; when none is left the menu
      hides, otherwise it opens with the first visible item highlighted. */
  function Show(m: Menu, catalog: seq<SlashItem>, query: string): (r: Menu)
    ensures MenuOk(r, catalog)
    ensures forall i :: 0 <= i < |catalog| ==> (r.visible[i] <==> Matches(catalog[i].name, query))
    ensures r.open <==> exists i :: 0 <= i < |catalog| && Matches(catalog[i].name, query)
    ensures r.open ==> r.active == 0 && r.anchor == m.anchor
    ensures !r.open ==> r.anchor.None?
  {
    var v := Shown(catalog, query);
    if CountShown(v) == 0 then Hide(m).(visible := v)
    else
      assert exists i :: 0 <= i < |catalog| && v[i];
      m.(open := true, visible := v, active := 0)
  }

  /** The loop of showSlashMenu: the flags and the visible count together. */
  method CountMatches(catalog: seq<SlashItem>, query: string) returns (visible: seq<bool>, count: nat)
    ensures visible == Shown(catalog, query)
    ensures count == CountShown(visible)
  {
    ghost var full := Shown(catalog, query);
    visible := [];
    count := 0;
    for i := 0 to |catalog|
      invariant visible == full[..i]
      invariant count == CountShown(visible)
    {
      var hit := query == "" || Contains(Lower(catalog[i].name), query);
      assert hit == full[i];
      assert full[..i + 1] == full[..i] + [hit];
      CountShownAppend(visible, hit);
      visible := visible + [hit];
      if hit {
        count := count + 1;
      }
    }
    assert full[..|catalog|] == full;
  }

  /** handleSlashInput on the text of the caret's block: a leading slash
      filters by the rest, lower-cased, and remembers the block even when
      nothing matched; any other text closes the menu. */
  function AfterInput(m: Menu, catalog: seq<SlashItem>, text: string, block: nat): (r: Menu)
    ensures MenuOk(r, catalog) || (!StartsWith(text, "/") && r == Hide(m))
    ensures StartsWith(text, "/") ==> r.anchor == Some(block)
    ensures StartsWith(text, "/") ==>
      forall i :: 0 <= i < |catalog| ==> (r.visible[i] <==> Matches(catalog[i].name, Lower(text[1..])))
    ensures !StartsWith(text, "/") ==> !r.open && r.anchor.None?
  {
    if StartsWith(text, "/") then Show(m, catalog, Lower(text[1..])).(anchor := Some(block))
    else Hide(m)
  }

  /** "/" alone opens the menu on every item. */
  lemma SlashAloneShowsAll(m: Menu, catalog: seq<SlashItem>, block: nat)
    requires catalog != []
    ensures var r := AfterInput(m, catalog, "/", block);
      r.open && r.active == 0 && forall i :: 0 <= i < |catalog| ==> r.visible[i]
  {
    assert Lower("/"[1..]) == "";
    assert Matches(catalog[0].name, "");
  }

  /** Case does not matter on either side: texts equal up to case filter alike. */
  lemma CaseInsensitive(m: Menu, catalog: seq<SlashItem>, a: string, b: string, block: nat)
    requires |a| == |b| && Lower(a) == Lower(b)
    ensures AfterInput(m, catalog, a, block) == AfterInput(m, catalog, b, block)
  {
    if |a| > 0 {
      assert Lower(a[1..]) == Lower(b[1..]) by {
        assert forall i :: 0 <= i < |a| - 1 ==> Lower(a[1..])[i] == Lower(a)[i + 1];
        assert forall i :: 0 <= i < |b| - 1 ==> Lower(b[1..])[i] == Lower(b)[i + 1];
      }
      assert StartsWith(a, "/") == StartsWith(b, "/") by {
        assert LowerChar(a[0]) == LowerChar(b[0]);
      }
    }
  }

  /** A key while the menu is open. Enter is left to the editor, which
      commits the highlighted item; any other key changes nothing here. */
  function Key(m: Menu, key: string): (r: Menu)
    ensures r.visible == m.visible
    ensures key !in {"ArrowDown", "ArrowUp", "Escape"} ==> r == m
    ensures key == "Escape" ==> !r.open && r.anchor.None?
    ensures key in {"ArrowDown", "ArrowUp"} ==> r.open == m.open && r.anchor == m.anchor
    ensures key in {"ArrowDown", "ArrowUp"} && 0 <= m.active < CountShown(m.visible) ==>
      0 <= r.active < CountShown(m.visible) && (r.active - m.active) * (r.active - m.active) <= 1
  {
    var count := CountShown(m.visible);
    match key
    case "ArrowDown" => m.(active := if m.active + 1 < count - 1 then m.active + 1 else count - 1)
    case "ArrowUp" => m.(active := if m.active - 1 > 0 then m.active - 1 else 0)
    case "Escape" => Hide(m)
    case _ => m
  }

  lemma KeyKeepsMenuOk(m: Menu, catalog: seq<SlashItem>, key: string)
    requires MenuOk(m, catalog) && m.open
    ensures MenuOk(Key(m, key), catalog)
    ensures key == "ArrowDown" ==> Key(m, key).active == (if m.active + 1 < CountShown(m.visible) then m.active + 1 else m.active)
    ensures key == "ArrowUp" ==> Key(m, key).active == (if m.active > 0 then m.active - 1 else 0)
    ensures key == "Escape" ==> !Key(m, key).open && Key(m, key).anchor.None?
  {
  }

  /** While the menu is open, Enter always has an item to commit. */
  function Highlighted(m: Menu, catalog: seq<SlashItem>): (item: SlashItem)
    requires MenuOk(m, catalog) && m.open
    ensures exists i :: (0 <= i < |catalog| && m.visible[i] && catalog[i] == item &&
                         CountShown(m.visible[..i]) == m.active)
  {
    var i := NthShown(m.visible, m.active);
    catalog[i]
  }
}
