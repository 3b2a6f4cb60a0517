/**
 * The settings control of src/map.ts: the HTML of the day and hour
 * selectors, and the address of the timetable file that the selected day
 * and hour load.
 */
module Settings {
  import opened Common
  import opened Decimal

  /** One `<option>` of a selector: the text shown and the value submitted. */
  datatype SelectItem = SelectItem(name: string, value: string)

  /** The `<option>` element of `item`, with the `selected` attribute when `selected` holds. */
  function OptionTag(item: SelectItem, selected: bool): string
  {
    "<option value=\"" + item.value + "\" " + (if selected then "selected" else "") + ">" + item.name + "</option>"
  }

  /** The pieces `createSelect` pushes: the opening tag, one option per item, the closing tag. */
  function SelectParts(id: string, items: seq<SelectItem>, selectedValue: string): (parts: seq<string>)
    ensures |parts| == |items| + 2
  {
    ["<select id=\"" + id + "\">"] + OptionTags(items, selectedValue) + ["</select>"]
  }

  function OptionTags(items: seq<SelectItem>, selectedValue: string): (tags: seq<string>)
    ensures |tags| == |items|
  {
    if items == [] then []
    else OptionTags(items[..|items| - 1], selectedValue) +
         [OptionTag(items[|items| - 1], items[|items| - 1].value == selectedValue)]
  }

  /** `Array.prototype.join("")`. */
  function Concat(parts: seq<string>): string
  {
    if parts == [] then "" else Concat(parts[..|parts| - 1]) + parts[|parts| - 1]
  }

  /** The option of item `i` is marked selected exactly when its value is the selected value. */
  lemma {:induction false} OptionTagsMarkSelection(items: seq<SelectItem>, selectedValue: string, i: int)
    requires 0 <= i < |items|
    ensures OptionTags(items, selectedValue)[i] == OptionTag(items[i], true) <==> items[i].value == selectedValue
    ensures OptionTags(items, selectedValue)[i] == OptionTag(items[i], false) <==> items[i].value != selectedValue
    decreases |items|
  {
    if i < |items| - 1 {
      OptionTagsMarkSelection(items[..|items| - 1], selectedValue, i);
    } else {
      MarkDistinguishable(items[i]);
    }
  }

  /** The two renderings of an option differ: the selected one is eight characters longer. */
  lemma MarkDistinguishable(item: SelectItem)
    ensures |OptionTag(item, true)| == |OptionTag(item, false)| + 8
    ensures OptionTag(item, true) != OptionTag(item, false)
  {
  }

  /**
   * `createSelect`: pushes the opening tag, an option per item in order,
   * and the closing tag, and joins them.
   */
  method CreateSelect(id: string, items: seq<SelectItem>, selectedValue: string) returns (html: string)
    ensures html == Concat(SelectParts(id, items, selectedValue))
  {
    var res: seq<string> := [];
    res := res + ["<select id=\"" + id + "\">"];
    for idx := 0 to |items|
      invariant res == ["<select id=\"" + id + "\">"] + OptionTags(items[..idx], selectedValue)
    {
      var selected := selectedValue == items[idx].value;
      res := res + [OptionTag(items[idx], selected)];
      assert items[..idx + 1][..idx] == items[..idx];
    }
    assert items[..|items|] == items;
    res := res + ["</select>"];
    html := Concat(res);
  }

  /** The items of the hour selector: the hours of the day, labelled with two-digit hours. */
  function HourItems(): (items: seq<SelectItem>)
    ensures |items| == 24
  {
    seq(24, i requires 0 <= i < 24 => HourItem(i))
  }

  function HourItem(i: nat): SelectItem
  {
    var hour := NatToString(i);
    SelectItem((if |hour| > 1 then hour else "0" + hour) + ":00", hour)
  }

  /**
   * `createHourSelect`: one item per hour, submitted as the plain number,
   * and the selector with hour 17 selected.
   */
  method CreateHourSelect() returns (html: string)
    ensures html == Concat(SelectParts("wt-hour-select", HourItems(), "17"))
  {
    var items: seq<SelectItem> := [];
    for idx := 0 to 24
      invariant items == HourItems()[..idx]
    {
      var hour := NatToString(idx);
      var name := (if |hour| > 1 then hour else "0" + hour) + ":00";
      items := items + [SelectItem(name, hour)];
    }
    assert HourItems()[..24] == HourItems();
    html := CreateSelect("wt-hour-select", items, "17");
  }

  /** The items of the day selector: working day, Saturday, Sunday. */
  function DayItems(): seq<SelectItem>
  {
    [SelectItem("Dzień roboczy", "week"), SelectItem("Sobota", "sat"), SelectItem("Niedziela", "sun")]
  }

  /** `createDaySelect`: the three day types, the working day selected. */
  method CreateDaySelect() returns (html: string)
    ensures html == Concat(SelectParts("wt-day-select", DayItems(), "week"))
  {
    var items: seq<SelectItem> := [];
    items := items + [SelectItem("Dzień roboczy", "week")];
    items := items + [SelectItem("Sobota", "sat")];
    items := items + [SelectItem("Niedziela", "sun")];
    assert items == DayItems();
    html := CreateSelect("wt-day-select", items, "week");
  }

  /**
   * Each hour item submits the number of its hour, which reads back as
   * that hour, and is labelled with five characters: the hour in two
   * digits, read back as the hour, and `:00`.
   */
  lemma {:induction false} HourItemReadsBack(i: nat)
    requires i < 24
    ensures ParseInt(HourItems()[i].value) == Some(i)
    ensures var name := HourItems()[i].name;
            |name| == 5 && name[2..] == ":00" && ParseInt(name[..2]) == Some(i)
  {
    var hour := NatToString(i);
    ParseIntOfNatToString(i);
    if i < 10 {
      assert hour == [DigitChar(i)];
      var two := "0" + hour;
      assert AllDigits(two);
      assert DigitsValue(two[..1]) == 0;
      assert DigitsValue(two) == i;
      assert HourItems()[i].name[..2] == two;
    } else {
      assert hour == NatToString(i / 10) + [DigitChar(i % 10)];
      assert |NatToString(i / 10)| == 1;
      assert HourItems()[i].name[..2] == hour;
    }
  }

  /** The hour items submit pairwise different values. */
  lemma HourValuesDistinct(i: nat, j: nat)
    requires i < 24 && j < 24 && HourItems()[i].value == HourItems()[j].value
    ensures i == j
  {
    NatToStringInjective(i, j);
  }

  /** Of the hour options exactly the one for hour 17 is marked selected. */
  lemma {:induction false} HourSelectMarksSeventeen(i: nat)
    requires i < 24
    ensures OptionTags(HourItems(), "17")[i] == OptionTag(HourItems()[i], true) <==> i == 17
  {
    OptionTagsMarkSelection(HourItems(), "17", i);
    assert NatToString(17) == "17" by {
      assert NatToString(1) == "1";
    }
    if HourItems()[i].value == "17" {
      HourValuesDistinct(i, 17);
    }
  }

  /** Of the day options exactly the first, the working day, is marked selected. */
  lemma {:induction false} DaySelectMarksWeek(i: nat)
    requires i < 3
    ensures OptionTags(DayItems(), "week")[i] == OptionTag(DayItems()[i], true) <==> i == 0
  {
    OptionTagsMarkSelection(DayItems(), "week", i);
  }

  /**
   * The timetable file `requestRepaint` loads for the selected day and
   * the hour read from the hour selector.
   */
  function RoutesUrl(day: string, hour: int): string
    requires hour >= 0
  {
    "./includes/routes_" + day + "_" + NatToString(hour) + ".json"
  }

  /**
   * The hour `requestRepaint` reads back from the hour selector is the
   * hour of the option, so the file requested is that hour's file.
   */
  lemma {:induction false} SelectedHourFile(day: string, i: nat)
    requires i < 24
    ensures ParseInt(HourItems()[i].value) == Some(i)
    ensures RoutesUrl(day, ParseInt(HourItems()[i].value).value) == "./includes/routes_" + day + "_" + HourItems()[i].value + ".json"
  {
    HourItemReadsBack(i);
  }
}
