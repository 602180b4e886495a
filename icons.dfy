/**
 * The icon sprite upsert of the desk bundle (`_injectIcons`).
 *
 * The sprite sheet `#frappe-symbols` is modelled as the sequence of its
 * `<symbol>` children, each reduced to its id, its viewBox and its inner
 * markup; the markup is an opaque string. The icon table `CUSTOM_ICONS` is
 * a sequence of (id, markup) pairs in the key order of the object literal.
 */
module Icons {
  import opened Wrappers

  datatype Symbol = Symbol(id: string, viewBox: string, content: string)

  datatype Icon = Icon(id: string, markup: string)

  type IconTable = seq<Icon>

  /** The coordinate space given to every symbol the upsert creates. */
  const DefaultViewBox: string := "0 0 16 16"

  /** The keys of an object literal are pairwise different. */
  predicate Distinct(t: IconTable) {
    forall i, j :: 0 <= i < j < |t| ==> t[i].id != t[j].id
  }

  /** True when the two children sequences agree on every child's id, in order. */
  predicate SameIds(a: seq<Symbol>, b: seq<Symbol>) {
    |a| == |b| && forall i :: 0 <= i < |a| ==> a[i].id == b[i].id
  }

  /** No two children share an id. */
  predicate UniqueIds(cs: seq<Symbol>) {
    forall i, j :: 0 <= i < j < |cs| ==> cs[i].id != cs[j].id
  }

  /** `querySelector("#" + id)` on the sprite: the first child, in document order, with that id. */
  function FindIndex(cs: seq<Symbol>, id: string): (r: Option<nat>)
    ensures r.Some? ==> r.value < |cs| && cs[r.value].id == id
    ensures r.Some? ==> forall j :: 0 <= j < r.value ==> cs[j].id != id
    ensures r.None? ==> forall j :: 0 <= j < |cs| ==> cs[j].id != id
  {
    if |cs| == 0 then None
    else if cs[0].id == id then Some(0)
    else match FindIndex(cs[1..], id)
      case None => None
      case Some(i) => Some(i + 1)
  }

  /** `CUSTOM_ICONS[id]`: a repeated key of an object literal keeps its last value. */
  function Lookup(t: IconTable, id: string): (r: Option<string>)
    ensures r.Some? <==> exists k :: 0 <= k < |t| && t[k].id == id
  {
    if |t| == 0 then None
    else if t[|t| - 1].id == id then Some(t[|t| - 1].markup)
    else Lookup(t[..|t| - 1], id)
  }

  /** The symbol created for a table entry whose id the sprite lacks. */
  function NewSymbol(icon: Icon): Symbol {
    Symbol(icon.id, DefaultViewBox, icon.markup)
  }

  /** One run of the `forEach` callback: overwrite the first match, or append a new symbol. */
  function Upsert(cs: seq<Symbol>, icon: Icon): (r: seq<Symbol>)
    ensures FindIndex(cs, icon.id).Some? ==> |r| == |cs| && r[FindIndex(cs, icon.id).value].content == icon.markup
    ensures FindIndex(cs, icon.id).None? ==> |r| == |cs| + 1 && r[|cs|] == NewSymbol(icon)
    ensures forall j :: 0 <= j < |cs| ==> r[j].id == cs[j].id && r[j].viewBox == cs[j].viewBox
    ensures forall j :: 0 <= j < |cs| && Some(j) != FindIndex(cs, icon.id) ==> r[j] == cs[j]
  {
    match FindIndex(cs, icon.id)
    case Some(i) => cs[i := cs[i].(content := icon.markup)]
    case None => cs + [NewSymbol(icon)]
  }

  /** `_injectIcons`: the upsert applied to every table entry, in table order. */
  function Inject(cs: seq<Symbol>, t: IconTable): (r: seq<Symbol>)
    ensures |cs| <= |r| <= |cs| + |t|
  {
    if |t| == 0 then cs else Upsert(Inject(cs, t[..|t| - 1]), t[|t| - 1])
  }

  /** The table entries, in table order, whose id no child of the sprite carries. */
  function Absent(cs: seq<Symbol>, t: IconTable): (a: IconTable)
    ensures |a| <= |t|
    ensures forall k :: 0 <= k < |a| ==> a[k] in t && FindIndex(cs, a[k].id).None?
    ensures forall k :: 0 <= k < |t| && FindIndex(cs, t[k].id).None? ==> t[k] in a
  {
    if |t| == 0 then []
    else
      var rest := Absent(cs, t[..|t| - 1]);
      assert forall k :: 0 <= k < |rest| ==> rest[k] in t by {
        forall k | 0 <= k < |rest| ensures rest[k] in t {
          var m :| 0 <= m < |t| - 1 && t[..|t| - 1][m] == rest[k];
          assert t[m] == rest[k];
        }
      }
      assert forall k :: 0 <= k < |t| - 1 ==> t[k] == t[..|t| - 1][k];
      if FindIndex(cs, t[|t| - 1].id).Some? then rest else rest + [t[|t| - 1]]
  }

  /** The child at index `i` once the upsert is done: only the first child with a table id changes, and only its content. */
  function Rewrite(cs: seq<Symbol>, t: IconTable, i: nat): Symbol
    requires i < |cs|
  {
    match Lookup(t, cs[i].id)
    case Some(m) => if FindIndex(cs, cs[i].id) == Some(i) then cs[i].(content := m) else cs[i]
    case None => cs[i]
  }

  /** The pre-existing children after the upsert, in their original positions. */
  function Overwritten(cs: seq<Symbol>, t: IconTable): seq<Symbol> {
    seq(|cs|, i requires 0 <= i < |cs| => Rewrite(cs, t, i))
  }

  /** The symbols the upsert appends: one per absent table entry, in table order. */
  function Appended(cs: seq<Symbol>, t: IconTable): seq<Symbol> {
    var a := Absent(cs, t);
    seq(|a|, k requires 0 <= k < |a| => NewSymbol(a[k]))
  }

  // ---------------------------------------------------------------------
  // Lemmas about the lookups
  // ---------------------------------------------------------------------

  /** The contract of `FindIndex` pins down its result. */
  lemma FindIndexIs(cs: seq<Symbol>, id: string, r: Option<nat>)
    requires r.Some? ==> r.value < |cs| && cs[r.value].id == id
    requires r.Some? ==> forall j :: 0 <= j < r.value ==> cs[j].id != id
    requires r.None? ==> forall j :: 0 <= j < |cs| ==> cs[j].id != id
    ensures FindIndex(cs, id) == r
  {
  }

  lemma FindIndexSameIds(a: seq<Symbol>, b: seq<Symbol>, id: string)
    requires SameIds(a, b)
    ensures FindIndex(a, id) == FindIndex(b, id)
  {
    FindIndexIs(a, id, FindIndex(b, id));
  }

  lemma FindIndexAppend(a: seq<Symbol>, b: seq<Symbol>, id: string)
    ensures FindIndex(a + b, id) ==
      match FindIndex(a, id)
      case Some(i) => Some(i)
      case None => match FindIndex(b, id) case Some(j) => Some(|a| + j) case None => None
  {
    var ab := a + b;
    assert forall j :: 0 <= j < |a| ==> ab[j] == a[j];
    assert forall j :: 0 <= j < |b| ==> ab[|a| + j] == b[j];
    match FindIndex(a, id)
    case Some(i) =>
      FindIndexIs(ab, id, Some(i));
    case None =>
      match FindIndex(b, id)
      case Some(j) =>
        assert forall k :: |a| <= k < |a| + j ==> ab[k] == b[k - |a|];
        FindIndexIs(ab, id, Some(|a| + j));
      case None =>
        assert forall k :: |a| <= k < |ab| ==> ab[k] == b[k - |a|];
        FindIndexIs(ab, id, None);
  }

  /** With distinct keys, every table entry is what its own id looks up. */
  lemma {:induction false} LookupDistinct(t: IconTable, k: nat)
    requires Distinct(t) && k < |t|
    ensures Lookup(t, t[k].id) == Some(t[k].markup)
  {
    if k < |t| - 1 {
      var p := t[..|t| - 1];
      assert p[k] == t[k];
      assert Distinct(p);
      LookupDistinct(p, k);
    }
  }

  // ---------------------------------------------------------------------
  // What the upsert does
  // ---------------------------------------------------------------------

  /**
   * The pre-existing children keep their positions, ids and viewBoxes: the
   * first child carrying a table id gets that entry's markup, every other
   * child is left as it was. Holds for any table, repeated keys included.
   */
  lemma {:induction false} InjectKeepsExisting(cs: seq<Symbol>, t: IconTable)
    ensures |cs| <= |Inject(cs, t)|
    ensures Inject(cs, t)[..|cs|] == Overwritten(cs, t)
  {
    if |t| == 0 {
      assert Inject(cs, t)[..|cs|] == cs;
      assert forall i :: 0 <= i < |cs| ==> Overwritten(cs, t)[i] == cs[i];
    } else {
      var p, e := t[..|t| - 1], t[|t| - 1];
      var rp := Inject(cs, p);
      InjectKeepsExisting(cs, p);
      var r := Upsert(rp, e);
      assert r == Inject(cs, t);
      FindIndexPrefix(cs, rp, e.id);
      forall i | 0 <= i < |cs|
        ensures r[..|cs|][i] == Overwritten(cs, t)[i]
      {
        assert Overwritten(cs, p)[i] == rp[i];
        RewriteSnoc(cs, t, i);
      }
    }
  }

  /** Where the children `rp` begin with the children `cs` overwritten in place, a match in `cs` is the match in `rp`, and no match in `cs` means none before `|cs|`. */
  lemma FindIndexPrefix(cs: seq<Symbol>, rp: seq<Symbol>, id: string)
    requires |cs| <= |rp| && SameIds(rp[..|cs|], cs)
    ensures FindIndex(cs, id).Some? ==> FindIndex(rp, id) == FindIndex(cs, id)
    ensures FindIndex(cs, id).None? ==> FindIndex(rp, id).None? || |cs| <= FindIndex(rp, id).value
  {
    FindIndexSameIds(rp[..|cs|], cs, id);
    assert rp == rp[..|cs|] + rp[|cs|..];
    FindIndexAppend(rp[..|cs|], rp[|cs|..], id);
  }

  /** Adding the entry `e` to the end of the table changes only the first child with id `e.id`. */
  lemma RewriteSnoc(cs: seq<Symbol>, t: IconTable, i: nat)
    requires i < |cs| && |t| > 0
    ensures Rewrite(cs, t, i) ==
      if cs[i].id == t[|t| - 1].id then
        (if FindIndex(cs, cs[i].id) == Some(i) then cs[i].(content := t[|t| - 1].markup) else cs[i])
      else Rewrite(cs, t[..|t| - 1], i)
  {
  }

  /**
   * Child by child: a pre-existing child keeps its position, id and viewBox;
   * a child whose id is in no table entry, or which is not the first child
   * with its id, is left exactly as it was.
   */
  lemma InjectLeavesOthers(cs: seq<Symbol>, t: IconTable, i: nat)
    requires i < |cs|
    ensures i < |Inject(cs, t)|
    ensures Inject(cs, t)[i].id == cs[i].id && Inject(cs, t)[i].viewBox == cs[i].viewBox
    ensures (forall k :: 0 <= k < |t| ==> t[k].id != cs[i].id) ==> Inject(cs, t)[i] == cs[i]
    ensures FindIndex(cs, cs[i].id) != Some(i) ==> Inject(cs, t)[i] == cs[i]
  {
    InjectKeepsExisting(cs, t);
    assert Inject(cs, t)[i] == Overwritten(cs, t)[i];
  }

  /**
   * With the distinct keys of an object literal: the upsert leaves the
   * pre-existing children overwritten in place and appends, in table order,
   * one new 16x16 symbol per table entry the sprite lacked.
   */
  lemma {:induction false} InjectAppends(cs: seq<Symbol>, t: IconTable)
    requires Distinct(t)
    ensures Inject(cs, t) == Overwritten(cs, t) + Appended(cs, t)
    ensures |Inject(cs, t)| == |cs| + |Absent(cs, t)|
  {
    InjectKeepsExisting(cs, t);
    InjectTail(cs, t);
    var r := Inject(cs, t);
    assert r == r[..|cs|] + r[|cs|..];
    assert |Overwritten(cs, t)| == |cs| && |Appended(cs, t)| == |Absent(cs, t)|;
  }

  lemma {:induction false} InjectTail(cs: seq<Symbol>, t: IconTable)
    requires Distinct(t)
    ensures |cs| <= |Inject(cs, t)|
    ensures Inject(cs, t)[|cs|..] == Appended(cs, t)
  {
    if |t| > 0 {
      var p, e := t[..|t| - 1], t[|t| - 1];
      assert Distinct(p);
      var rp := Inject(cs, p);
      InjectKeepsExisting(cs, p);
      InjectTail(cs, p);
      assert SameIds(rp[..|cs|], cs);
      FindIndexPrefix(cs, rp, e.id);
      if FindIndex(cs, e.id).None? {
        AppendedLacks(cs, p, e.id);
      }
      UpsertTail(rp, |cs|, e);
      AppendedSnoc(cs, t);
    }
  }

  /** One more table entry appends one more symbol exactly when the sprite lacked its id. */
  lemma AppendedSnoc(cs: seq<Symbol>, t: IconTable)
    requires |t| > 0
    ensures Appended(cs, t) ==
      if FindIndex(cs, t[|t| - 1].id).Some? then Appended(cs, t[..|t| - 1])
      else Appended(cs, t[..|t| - 1]) + [NewSymbol(t[|t| - 1])]
  {
    var p, e := t[..|t| - 1], t[|t| - 1];
    var ap, a := Appended(cs, p), Appended(cs, t);
    if FindIndex(cs, e.id).None? {
      assert Absent(cs, t) == Absent(cs, p) + [e];
      assert |a| == |ap| + 1;
      assert forall k :: 0 <= k < |ap| ==> a[k] == ap[k];
      assert a == ap + [NewSymbol(e)];
    }
  }

  /** No appended symbol carries an id the table does not hold. */
  lemma AppendedLacks(cs: seq<Symbol>, t: IconTable, id: string)
    requires forall k :: 0 <= k < |t| ==> t[k].id != id
    ensures FindIndex(Appended(cs, t), id).None?
  {
    var a := Absent(cs, t);
    forall k | 0 <= k < |a|
      ensures Appended(cs, t)[k].id != id
    {
      var m :| 0 <= m < |t| && t[m] == a[k];
    }
  }

  /** An upsert whose match, if any, lies before `n` leaves the children from `n` on alone, else it appends. */
  lemma UpsertTail(cs: seq<Symbol>, n: nat, e: Icon)
    requires n <= |cs|
    ensures FindIndex(cs, e.id).Some? && FindIndex(cs, e.id).value < n ==> Upsert(cs, e)[n..] == cs[n..]
    ensures FindIndex(cs, e.id).None? ==> Upsert(cs, e)[n..] == cs[n..] + [NewSymbol(e)]
  {
    match FindIndex(cs, e.id)
    case Some(i) =>
      if i < n {
        var u := cs[i := cs[i].(content := e.markup)];
        assert Upsert(cs, e) == u;
        assert u[n..] == cs[n..] by {
          assert |u[n..]| == |cs[n..]|;
          forall j | 0 <= j < |cs| - n
            ensures u[n..][j] == cs[n..][j]
          {
            assert u[n..][j] == u[n + j];
          }
        }
      }
    case None =>
      var x := NewSymbol(e);
      assert Upsert(cs, e) == cs + [x];
      assert (cs + [x])[n..] == cs[n..] + [x];
  }

  /**
   * After the upsert, every table id is carried by a child of the sprite,
   * and the first such child holds that entry's markup.
   */
  lemma InjectInstalls(cs: seq<Symbol>, t: IconTable, k: nat)
    requires Distinct(t) && k < |t|
    ensures FindIndex(Inject(cs, t), t[k].id).Some?
    ensures Inject(cs, t)[FindIndex(Inject(cs, t), t[k].id).value].content == t[k].markup
  {
    var id, r := t[k].id, Inject(cs, t);
    var o, a := Overwritten(cs, t), Appended(cs, t);
    InjectAppends(cs, t);
    OverwrittenInstalls(cs, t, k);
    FindIndexAppend(o, a, id);
    if FindIndex(cs, id).None? {
      AppendedInstalls(cs, t, k);
      var j := FindIndex(a, id).value;
      assert r[|o| + j] == a[j];
    }
  }

  /** An entry whose id the sprite already carried overwrites the first such child in place. */
  lemma OverwrittenInstalls(cs: seq<Symbol>, t: IconTable, k: nat)
    requires Distinct(t) && k < |t|
    ensures FindIndex(Overwritten(cs, t), t[k].id) == FindIndex(cs, t[k].id)
    ensures FindIndex(cs, t[k].id).Some? ==> Overwritten(cs, t)[FindIndex(cs, t[k].id).value].content == t[k].markup
  {
    var o := Overwritten(cs, t);
    assert SameIds(o, cs);
    FindIndexSameIds(o, cs, t[k].id);
    LookupDistinct(t, k);
  }

  /** An entry whose id the sprite lacked is found among the appended symbols, carrying its markup. */
  lemma AppendedInstalls(cs: seq<Symbol>, t: IconTable, k: nat)
    requires Distinct(t) && k < |t| && FindIndex(cs, t[k].id).None?
    ensures FindIndex(Appended(cs, t), t[k].id).Some?
    ensures Appended(cs, t)[FindIndex(Appended(cs, t), t[k].id).value].content == t[k].markup
  {
    var a, ab := Appended(cs, t), Absent(cs, t);
    var m :| 0 <= m < |ab| && ab[m] == t[k];
    assert a[m].id == t[k].id;
    var j := FindIndex(a, t[k].id).value;
    var q :| 0 <= q < |t| && t[q] == ab[j];
    assert q == k;
  }

  /** Running the upsert a second time changes nothing: re-running it on every route change is harmless. */
  lemma InjectIdempotent(cs: seq<Symbol>, t: IconTable)
    requires Distinct(t)
    ensures Inject(Inject(cs, t), t) == Inject(cs, t)
  {
    var r := Inject(cs, t);
    InjectAppends(r, t);
    var ab := Absent(r, t);
    if |ab| > 0 {
      var m :| 0 <= m < |t| && t[m] == ab[0];
      InjectInstalls(cs, t, m);
      assert false;
    }
    forall i | 0 <= i < |r|
      ensures Overwritten(r, t)[i] == r[i]
    {
      if Lookup(t, r[i].id).Some? && FindIndex(r, r[i].id) == Some(i) {
        var m :| 0 <= m < |t| && t[m].id == r[i].id;
        LookupDistinct(t, m);
        InjectInstalls(cs, t, m);
      }
    }
    assert Overwritten(r, t) == r;
  }

  /** When the host sprite has no two children with the same id, neither does the result. */
  lemma {:induction false} InjectPreservesUniqueIds(cs: seq<Symbol>, t: IconTable)
    requires UniqueIds(cs)
    ensures UniqueIds(Inject(cs, t))
  {
    if |t| > 0 {
      var p, e := t[..|t| - 1], t[|t| - 1];
      InjectPreservesUniqueIds(cs, p);
      var rp := Inject(cs, p);
      var r := Upsert(rp, e);
      assert r == Inject(cs, t);
      if FindIndex(rp, e.id).Some? {
        assert SameIds(r, rp);
      }
    }
  }

  // ---------------------------------------------------------------------
  // The table the bundle installs
  // ---------------------------------------------------------------------

  /**
   * `CUSTOM_ICONS`, in key order. Each markup string stands for the SVG
   * fragment of that entry and is named after the glyph it draws.
   */
  const CustomIcons: IconTable := [
    Icon("icon-accounting", "open ledger book"),
    Icon("icon-selling", "upward trend arrow with base line"),
    Icon("icon-buying", "shopping bag"),
    Icon("icon-stock", "stacked boxes"),
    Icon("icon-hr-module", "person silhouette"),
    Icon("icon-manufacturing", "gear"),
    Icon("icon-projects", "kanban board"),
    Icon("icon-crm", "two connected people"),
    Icon("icon-assets", "building"),
    Icon("icon-support", "headset"),
    Icon("icon-quality-module", "shield with checkmark"),
    Icon("icon-setup", "three sliders"),
    Icon("icon-education", "graduation cap"),
    Icon("icon-healthcare", "heart with pulse line"),
    Icon("icon-retail", "storefront"),
    Icon("icon-non-profit", "helping hand with heart"),
    Icon("icon-agriculture", "sprouting leaf")
  ]

  /** Length and two characters of an id, enough to tell the table's ids apart. */
  function IdKey(s: string): (int, char, char) {
    if |s| >= 7 then (|s|, s[5], s[6]) else (|s|, ' ', ' ')
  }

  /** The keys of `CUSTOM_ICONS` are seventeen different ids. */
  lemma CustomIconsDistinct()
    ensures |CustomIcons| == 17 && Distinct(CustomIcons)
  {
    var t := CustomIcons;
    forall i, j | 0 <= i < j < |t|
      ensures t[i].id != t[j].id
    {
      assert IdKey(t[i].id) != IdKey(t[j].id);
    }
  }

  // ---------------------------------------------------------------------
  // The sprite element
  // ---------------------------------------------------------------------

  /** The `#frappe-symbols` element; its children are replaced in place. */
  class Sprite {
    var symbols: seq<Symbol>

    constructor (symbols: seq<Symbol>)
      ensures this.symbols == symbols
    {
      this.symbols := symbols;
    }

    /** `spriteEl.querySelector("#" + id)`, as a scan of the children. */
    method FindSymbol(id: string) returns (r: Option<nat>)
      ensures r == FindIndex(symbols, id)
    {
      var i := 0;
      while i < |symbols|
        invariant 0 <= i <= |symbols|
        invariant forall j :: 0 <= j < i ==> symbols[j].id != id
      {
        if symbols[i].id == id {
          return Some(i);
        }
        i := i + 1;
      }
      return None;
    }

    /** `_injectIcons(spriteEl)` for the given table. */
    method InjectIcons(table: IconTable)
      modifies this
      ensures symbols == Inject(old(symbols), table)
    {
      for k := 0 to |table|
        invariant symbols == Inject(old(symbols), table[..k])
      {
        var icon := table[k];
        assert table[..k + 1][..k] == table[..k];
        var existing := FindSymbol(icon.id);
        match existing
        case Some(i) =>
          symbols := symbols[i := symbols[i].(content := icon.markup)];
        case None =>
          symbols := symbols + [Symbol(icon.id, DefaultViewBox, icon.markup)];
      }
      assert table[..|table|] == table;
    }
  }
}
