/** The gallery header (src/components/Header/Header.tsx): it derives the
    selected items from the gallery and shows either the title "Showcase" or a
    selection bar with a count and a button that hands the selection to the
    `onDelete` callback. The JSX is modelled by the data it displays. */
module Header {
  import opened ArrayOps
  import opened ImageTypes

  /** The icon in front of the count. */
  datatype Icon = CheckboxIcon | EmptyCheckboxIcon

  /** What the header displays. In `Selection`, `onDelete` is the argument the
      button's click passes to the `onDelete` callback, or `None` when the
      click handler does nothing. */
  datatype HeaderView =
    | Showcase(title: string)
    | Selection(icon: Icon, countText: string, buttonText: string, onDelete: Option<seq<Item>>)

  /** `galleryData.filter((item) => item.isSelected)`: exactly the selected
      items, each as often as it occurs in the gallery, in gallery order. */
  function SelectedItems(galleryData: seq<Item>): (r: seq<Item>)
    ensures forall i :: 0 <= i < |r| ==> r[i].isSelected
    ensures forall x :: x in r <==> x in galleryData && x.isSelected
    ensures forall x :: multiset(r)[x] == if x.isSelected then multiset(galleryData)[x] else 0
    ensures IsSubsequence(r, galleryData)
    ensures r == [] <==> forall i :: 0 <= i < |galleryData| ==> !galleryData[i].isSelected
  {
    var keep := (item: Item) => item.isSelected;
    FilterIsSubsequence(galleryData, keep);
    FilterEmpty(galleryData, keep);
    Filter(galleryData, keep)
  }

  // ---------------------------------------------------------------------------
  // Decimal rendering of the count (JavaScript's `${n}` on a natural number)
  // ---------------------------------------------------------------------------

  predicate IsDigit(c: char)
  {
    '0' <= c <= '9'
  }

  function DigitChar(d: nat): (c: char)
    requires d < 10
    ensures IsDigit(c)
  {
    (48 + d) as char
  }

  function DigitValue(c: char): (d: nat)
    requires IsDigit(c)
    ensures d < 10
  {
    c as int - 48
  }

  /** The decimal digits of `n`, most significant first, without leading
      zeros. */
  function NatToString(n: nat): (s: string)
    ensures |s| > 0
    ensures forall i :: 0 <= i < |s| ==> IsDigit(s[i])
    ensures |s| > 1 ==> s[0] != '0'
  {
    if n < 10 then [DigitChar(n)]
    else NatToString(n / 10) + [DigitChar(n % 10)]
  }

  /** The number a string of decimal digits stands for. */
  function ParseNat(s: string): (n: nat)
    requires forall i :: 0 <= i < |s| ==> IsDigit(s[i])
  {
    if s == [] then 0
    else ParseNat(s[..|s| - 1]) * 10 + DigitValue(s[|s| - 1])
  }

  /** Rendering a count and reading it back gives the count. */
  lemma {:induction false} ParseNatToString(n: nat)
    ensures ParseNat(NatToString(n)) == n
  {
    var s := NatToString(n);
    if n < 10 {
      assert s[..|s| - 1] == [];
    } else {
      assert s[..|s| - 1] == NatToString(n / 10);
      ParseNatToString(n / 10);
    }
  }

  /** The text next to the icon, `${n} Files Selected`. */
  function CountLabel(n: nat): (text: string)
  {
    NatToString(n) + " Files Selected"
  }

  /** Different counts give different labels. */
  lemma CountLabelInjective(m: nat, n: nat)
    requires CountLabel(m) == CountLabel(n)
    ensures m == n
  {
    var a, b := NatToString(m), NatToString(n);
    assert |a| == |b| by {
      assert |CountLabel(m)| == |a| + 15 && |CountLabel(n)| == |b| + 15;
    }
    assert a == CountLabel(m)[..|a|] && b == CountLabel(n)[..|b|];
    ParseNatToString(m);
    ParseNatToString(n);
  }

  /** The header for `galleryData`. The selection bar is shown when something
      is selected; inside it the icon test, the singular/plural label choice,
      the button text choice and the click handler choice are the component's
      own conditionals. */
  function View(galleryData: seq<Item>): (v: HeaderView)
    ensures v.Showcase? <==> forall i :: 0 <= i < |galleryData| ==> !galleryData[i].isSelected
    ensures v.Showcase? ==> v.title == "Showcase"
    ensures v.Selection? ==>
      && v.icon == CheckboxIcon
      && v.countText == CountLabel(|SelectedItems(galleryData)|)
      && v.buttonText == "Delete Files"
      && v.onDelete == Some(SelectedItems(galleryData))
  {
    var selectedItems := SelectedItems(galleryData);
    var n := |selectedItems|;
    if n > 0 then
      Selection(
        if n > 0 then CheckboxIcon else EmptyCheckboxIcon,
        if n > 1 then CountLabel(n) else CountLabel(n),
        if n > 1 then "Delete Files" else "Delete Files",
        if n > 0 then Some(selectedItems) else None)
    else
      Showcase("Showcase")
  }

  /** The count in the selection bar is the number of selected items, and it
      can be read back from the label. */
  lemma SelectionCountReadable(galleryData: seq<Item>)
    requires View(galleryData).Selection?
    ensures var text := View(galleryData).countText;
      && |text| > 15
      && text[|text| - 15..] == " Files Selected"
      && (forall i :: 0 <= i < |text| - 15 ==> IsDigit(text[i]))
      && ParseNat(text[..|text| - 15]) == |SelectedItems(galleryData)|
  {
    var n := |SelectedItems(galleryData)|;
    var text := View(galleryData).countText;
    assert text[..|text| - 15] == NatToString(n);
    ParseNatToString(n);
  }
}
