/** The rule record, the built-in rule list, and the list operations the page performs. */
module Rules {
  import opened Wrappers
  import opened JsStrings

  datatype Rule = Rule(title: string, desc: string)

  /** The list shown when nothing has been stored yet, in this order. */
  function Defaults(): (d: seq<Rule>)
    ensures |d| == 4
    ensures forall i :: 0 <= i < |d| ==> d[i].title != [] && d[i].desc != []
  {
    [ Rule("Wear Helmet", "Always wear helmet while riding a bike."),
      Rule("Use Seatbelt", "Seatbelt reduces injury risks."),
      Rule("Obey Traffic Signals", "Follow traffic lights and road signs."),
      Rule("No Speeding", "Drive within speed limits to prevent accidents.") ]
  }

  /**
   * The form check shared by adding and editing: both fields are trimmed, and
   * the record is refused when either is empty after trimming.
   */
  function Validated(rawTitle: string, rawDesc: string): (r: Option<Rule>)
    ensures r.None? <==> AllWhiteSpace(rawTitle) || AllWhiteSpace(rawDesc)
    ensures r.Some? ==> r.value.title == Trim(rawTitle) && r.value.desc == Trim(rawDesc)
    ensures r.Some? ==> r.value.title != [] && r.value.desc != []
  {
    var title := Trim(rawTitle);
    var desc := Trim(rawDesc);
    if title == [] || desc == [] then None else Some(Rule(title, desc))
  }

  /** Where `Array.prototype.splice` starts for index `i`: a negative index counts back from the end. */
  function SpliceStart(len: nat, i: int): (start: nat)
    ensures start <= len
    ensures 0 <= i ==> start == if i < len then i else len
    ensures i < 0 ==> start == if -i <= len then len + i else 0
  {
    if i < 0 then (if len + i < 0 then 0 else len + i)
    else if i < len then i
    else len
  }

  /**
   * `s.splice(i, 1)`: the element at the start position is removed and the
   * rest keep their order; past the end, nothing is removed.
   */
  function SpliceOne<T>(s: seq<T>, i: int): (r: seq<T>)
    ensures var k := SpliceStart(|s|, i);
      && (k == |s| ==> r == s)
      && (k < |s| ==> |r| == |s| - 1
                      && (forall j :: 0 <= j < k ==> r[j] == s[j])
                      && (forall j :: k <= j < |r| ==> r[j] == s[j + 1])
                      && multiset(r) + multiset{s[k]} == multiset(s))
  {
    var k := SpliceStart(|s|, i);
    if k < |s| then
      assert s == s[..k] + [s[k]] + s[k + 1..];
      s[..k] + s[k + 1..]
    else
      s
  }
}
