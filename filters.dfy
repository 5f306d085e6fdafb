/**
 * The landing screen's row of filter chips: a fixed list of lower-case
 * filter values, each shown with its first letter upper-cased, the chip equal
 * to the active filter highlighted, and a press handing the chip's value to
 * the parent's `setActiveFilter`.
 */
module Filters {
  import opened Strings
  import opened Sequences

  /** The chip values, in display order. */
  const FilterValues: seq<string> := ["all", "luxury", "affordable", "ongoing", "completed"]

  /** The chips are five distinct, non-empty, lower-case values, `"all"` first. */
  lemma FilterValuesWellFormed()
    ensures |FilterValues| == 5 && FilterValues[0] == "all"
    ensures Distinct(FilterValues)
    ensures forall v :: v in FilterValues ==> v != "" && IsLowerCase(v)
  {
    assert IsLowerCase("all") && IsLowerCase("luxury") && IsLowerCase("affordable");
    assert IsLowerCase("ongoing") && IsLowerCase("completed");
  }

  /** `value.charAt(0).toUpperCase() + value.slice(1)`. */
  function Label(value: string): (caption: string)
    ensures |caption| == |value|
    ensures |value| > 0 ==> caption[0] == UpperChar(value[0]) && caption[1..] == value[1..]
  {
    if value == "" then "" else [UpperChar(value[0])] + value[1..]
  }

  /** Lower-casing a label gives back its lower-case value. */
  lemma LabelRoundTrip(value: string)
    requires IsLowerCase(value)
    ensures Lower(Label(value)) == value
  {
    if value != "" {
      LowerUpperChar(value[0]);
      assert Lower(Label(value))[0] == value[0];
    }
  }

  /** The chip labels as rendered. */
  lemma ChipLabels()
    ensures Label(FilterValues[0]) == "All" && Label(FilterValues[1]) == "Luxury"
    ensures Label(FilterValues[2]) == "Affordable" && Label(FilterValues[3]) == "Ongoing"
    ensures Label(FilterValues[4]) == "Completed"
  {
    assert Label("all") == "All" by {
      assert "all" == ['a'] + "ll" && "All" == ['A'] + "ll";
    }
    assert Label("luxury") == "Luxury" by {
      assert "luxury" == ['l'] + "uxury" && "Luxury" == ['L'] + "uxury";
    }
    assert Label("affordable") == "Affordable" by {
      assert "affordable" == ['a'] + "ffordable" && "Affordable" == ['A'] + "ffordable";
    }
    assert Label("ongoing") == "Ongoing" by {
      assert "ongoing" == ['o'] + "ngoing" && "Ongoing" == ['O'] + "ngoing";
    }
    assert Label("completed") == "Completed" by {
      assert "completed" == ['c'] + "ompleted" && "Completed" == ['C'] + "ompleted";
    }
  }

  /** One rendered chip. */
  datatype Chip = Chip(value: string, text: string, highlighted: bool)

  /** The chips rendered for the active filter, one per filter value. */
  function Chips(active: string): (chips: seq<Chip>)
    ensures |chips| == |FilterValues|
    ensures forall i :: 0 <= i < |chips| ==>
      chips[i].value == FilterValues[i] && chips[i].text == Label(FilterValues[i])
  {
    seq(|FilterValues|, i requires 0 <= i < |FilterValues| =>
      Chip(FilterValues[i], Label(FilterValues[i]), active == FilterValues[i]))
  }

  /** At most one chip is highlighted, exactly when the active filter is a chip value,
      and it is the chip whose value is the active filter. */
  lemma HighlightedChip(active: string)
    ensures forall i, j :: 0 <= i < j < |Chips(active)| ==>
      !(Chips(active)[i].highlighted && Chips(active)[j].highlighted)
    ensures forall i :: 0 <= i < |Chips(active)| ==>
      (Chips(active)[i].highlighted <==> Chips(active)[i].value == active)
    ensures (exists i :: 0 <= i < |Chips(active)| && Chips(active)[i].highlighted) <==>
      active in FilterValues
  {
    FilterValuesWellFormed();
    if active in FilterValues {
      var i :| 0 <= i < |FilterValues| && FilterValues[i] == active;
      assert Chips(active)[i].highlighted;
    }
  }

  /** Pressing chip `i` asks the parent to make its value the active filter. */
  function Press(active: string, i: nat): (selected: string)
    requires i < |Chips(active)|
    ensures selected == FilterValues[i]
    ensures Chips(selected)[i].highlighted
  {
    Chips(active)[i].value
  }
}
