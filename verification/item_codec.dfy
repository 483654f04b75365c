/**
 The command payload a shelf receives for one item, `"<id>,<quantity>"`,
 and the way the dispenser reads the item id back out of it
 (`parseInt(item.split(",")[0])`).
 */
module ItemCodec {
  import opened Decimal

  /**
   The payload built for a routed product, `${id},${quantity}`: its first
   comma-separated field is the id's text and the rest is the quantity's.
   */
  function Encode(id: int, quantity: int): (r: string)
    ensures FirstField(r) == IntToString(id)
    ensures |FirstField(r)| < |r| && r[|FirstField(r)| + 1..] == IntToString(quantity)
  {
    FirstFieldOfPrefix(IntToString(id), IntToString(quantity));
    IntToString(id) + "," + IntToString(quantity)
  }

  /** `s.split(",")[0]`: everything before the first comma (all of `s` if none). */
  function FirstField(s: string): (f: string)
    ensures f <= s
    ensures ',' !in f
    ensures |f| < |s| ==> s[|f|] == ','
  {
    if |s| == 0 || s[0] == ',' then [] else [s[0]] + FirstField(s[1..])
  }

  /**
   The id the dispenser reports for an item string: `parseInt` of the whole
   string when it has no comma (see ItemIdOfFields for the other case).
   */
  function ItemId(item: string): (r: Num)
    ensures ',' !in item ==> r == ParseInt(item)
  {
    var f := FirstField(item);
    assert ',' !in item ==> f == item by {
      if |f| < |item| { assert item[|f|] == ','; }
    }
    ParseInt(f)
  }

  /** The first field of a string is fixed by the text up to its first comma. */
  lemma {:induction false} FirstFieldOfPrefix(p: string, rest: string)
    requires ',' !in p
    ensures FirstField(p + "," + rest) == p
  {
    if |p| > 0 {
      assert (p + "," + rest)[1..] == p[1..] + "," + rest;
      FirstFieldOfPrefix(p[1..], rest);
      assert [p[0]] + p[1..] == p;
    } else {
      assert (p + "," + rest)[0] == ',';
    }
  }

  /** The id is read from the text before the first comma; whatever follows it never matters. */
  lemma ItemIdOfFields(first: string, rest: string)
    requires ',' !in first
    ensures ItemId(first + "," + rest) == ParseInt(first)
  {
    FirstFieldOfPrefix(first, rest);
  }

  /** Reading the id back from an encoded item gives the id it was built from. */
  lemma ItemIdOfEncode(id: int, quantity: int)
    ensures ItemId(Encode(id, quantity)) == Int(id)
  {
    ParseIntOfIntToString(id);
  }
}
