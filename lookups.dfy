/**
 * The lookup helpers of the page: the priority label, the status colour,
 * the next status of the status cycle and the colour of an assignee, which
 * is picked by a 32-bit string hash.
 */
module Lookups {
  import opened Values
  import Chat

  // ----- Priority -----

  /**
   * `getPriorityText`: the number is looked up as a property key of
   * `{1: 'Low', 2: 'Medium', 3: 'High'}`, so the number 1 and the string
   * "1" name the same entry; anything without an entry reads 'Medium'.
   */
  function PriorityText(priority: Value): (text: string)
    ensures text in {"Low", "Medium", "High"}
    ensures text == "Low" <==> priority in {Int(1), Str("1")}
    ensures text == "High" <==> priority in {Int(3), Str("3")}
  {
    if priority == Int(1) || priority == Str("1") then "Low"
    else if priority == Int(3) || priority == Str("3") then "High"
    else "Medium"
  }

  /** The label shown for the rank the backend stores is the label that was sent, for each of the three labels. */
  lemma PriorityTextInvertsRank(name: string)
    requires name in {"Low", "Medium", "High"}
    ensures PriorityText(Int(Chat.PriorityRank(Str(name)))) == name
  {
  }

  /** The rank the backend stores for a shown label is the number it was shown for, for each of 1, 2 and 3. */
  lemma RankInvertsPriorityText(n: int)
    requires 1 <= n <= 3
    ensures Chat.PriorityRank(Str(PriorityText(Int(n)))) == n
  {
  }

  /** An unknown label is stored as 2 and shown as 'Medium'. */
  lemma UnknownLabelShowsMedium(priority: Value)
    requires priority !in {Str("Low"), Str("Medium"), Str("High")}
    ensures Chat.PriorityRank(priority) == 2
    ensures PriorityText(Int(Chat.PriorityRank(priority))) == "Medium"
  {
  }

  // ----- Status -----

  /** The status values the page knows, in the order of the cycle. */
  const Statuses: seq<string> := ["Open", "In Progress", "Review", "Closed"]

  /** `getStatusColor`: one colour per known status, grey for anything else. */
  function StatusColor(status: string): (colour: string)
    ensures colour in {"#999", "#007bff", "#e83e8c", "#28a745"}
    ensures colour == "#007bff" <==> status == "In Progress"
    ensures colour == "#e83e8c" <==> status == "Review"
    ensures colour == "#28a745" <==> status == "Closed"
    ensures status !in Statuses ==> colour == "#999"
  {
    if status == "In Progress" then "#007bff"
    else if status == "Review" then "#e83e8c"
    else if status == "Closed" then "#28a745"
    else "#999"
  }

  /** `getNextStatus`: Open, In Progress and Review advance one step; every other value, Closed included, becomes 'In Progress'. */
  function NextStatus(status: string): (next: string)
    ensures next in {"In Progress", "Review", "Closed"}
    ensures next == "Review" <==> status == "In Progress"
    ensures next == "Closed" <==> status == "Review"
  {
    if status == "Open" then "In Progress"
    else if status == "In Progress" then "Review"
    else if status == "Review" then "Closed"
    else "In Progress"
  }

  /** The status `n` double-clicks after `status`. */
  function Advance(status: string, n: nat): string
    decreases n
  {
    if n == 0 then status else Advance(NextStatus(status), n - 1)
  }

  /**
   * Starting from Open, three double-clicks reach Closed through every
   * known status; from Closed the cycle restarts at 'In Progress', so Open
   * is never reached again.
   */
  lemma {:induction false} StatusCycle(status: string, n: nat)
    ensures Advance("Open", 1) == "In Progress" && Advance("Open", 2) == "Review" && Advance("Open", 3) == "Closed"
    ensures Advance("Closed", 1) == "In Progress"
    ensures n >= 1 ==> Advance(status, n) != "Open"
    decreases n
  {
    if n >= 2 {
      StatusCycle(NextStatus(status), n - 1);
    }
  }

  /** The double-click handler always finds a next status, so it always sends an update. */
  lemma NextStatusNeverEmpty(status: string)
    ensures NextStatus(status) != ""
  {
  }

  /** The known statuses other than Open and the unknown ones differ in colour: each status of the cycle after Open is recognisable. */
  lemma StatusColoursDistinct(s: string, t: string)
    requires s in Statuses[1..] && t in Statuses && s != t
    ensures StatusColor(s) != StatusColor(t)
  {
  }

  // ----- Assignee colour -----

  const TwoTo32: int := 0x1_0000_0000
  const TwoTo31: int := 0x8000_0000

  /** A value of JavaScript's 32-bit signed integers. */
  predicate IsInt32(x: int) {
    -TwoTo31 <= x < TwoTo31
  }

  /** ECMAScript's ToInt32: `x` modulo 2^32, taken into [-2^31, 2^31). */
  function ToInt32(x: int): (r: int)
    ensures IsInt32(r)
    ensures (x - r) % TwoTo32 == 0
  {
    (x + TwoTo31) % TwoTo32 - TwoTo31
  }

  /** The UTF-16 code units of one character, which `split('')` and `charCodeAt` see. */
  function CodeUnits(c: char): (units: seq<int>)
    ensures 1 <= |units| <= 2
    ensures forall k :: 0 <= k < |units| ==> 0 <= units[k] < 0x1_0000
  {
    var n := c as int;
    if n < 0x1_0000 then [n]
    else [0xD800 + (n - 0x1_0000) / 0x400, 0xDC00 + (n - 0x1_0000) % 0x400]
  }

  /** The UTF-16 code units of a string. */
  function Utf16(s: string): seq<int> {
    if s == [] then [] else Utf16(s[..|s| - 1]) + CodeUnits(s[|s| - 1])
  }

  /** One step of the fold as written: `(a << 5) - a + code`, then `a & a`. */
  function HashStep(a: int, code: int): int
    requires IsInt32(a)
  {
    ToInt32(ToInt32(a * 32) - a + code)
  }

  /** The fold over the code units, from the left, starting at 0. */
  function HashUnits(units: seq<int>): (h: int)
    ensures IsInt32(h)
  {
    if units == [] then 0 else HashStep(HashUnits(units[..|units| - 1]), units[|units| - 1])
  }

  /** The hash as an unbounded number: the sum of code·31^k, with the last unit at k = 0. */
  function Polynomial(units: seq<int>): int {
    if units == [] then 0 else 31 * Polynomial(units[..|units| - 1]) + units[|units| - 1]
  }

  /** ToInt32 only depends on its argument modulo 2^32. */
  lemma ToInt32Congruent(x: int, y: int)
    requires (x - y) % TwoTo32 == 0
    ensures ToInt32(x) == ToInt32(y)
  {
    var k := (x - y) / TwoTo32;
    assert x == y + TwoTo32 * k;
    assert (y + TwoTo32 * k + TwoTo31) % TwoTo32 == (y + TwoTo31) % TwoTo32;
  }

  /** One step as written is the wrapped `31·a + code`: the shift and the subtraction lose nothing modulo 2^32. */
  lemma HashStepWraps(a: int, code: int)
    requires IsInt32(a)
    ensures HashStep(a, code) == ToInt32(31 * a + code)
  {
    var s := ToInt32(a * 32);
    assert ((s - a + code) - (31 * a + code)) % TwoTo32 == (s - a * 32) % TwoTo32;
    ToInt32Congruent(s - a + code, 31 * a + code);
  }

  /** The hash is the polynomial hash of the code units wrapped to 32 bits, as `String.hashCode` of Java computes it. */
  lemma {:induction false} HashIsWrappedPolynomial(units: seq<int>)
    ensures HashUnits(units) == ToInt32(Polynomial(units))
  {
    if units != [] {
      var init := units[..|units| - 1];
      var code := units[|units| - 1];
      var h := HashUnits(init);
      HashIsWrappedPolynomial(init);
      HashStepWraps(h, code);
      assert h == ToInt32(Polynomial(init));
      var p := Polynomial(init);
      assert (p - h) % TwoTo32 == 0;
      var k := (p - h) / TwoTo32;
      assert (31 * p + code) - (31 * h + code) == TwoTo32 * (31 * k);
      ToInt32Congruent(31 * p + code, 31 * h + code);
    }
  }

  /** The assignee colours. */
  const AssigneeColours: seq<string> := ["#fd7e14", "#6f42c1", "#20c997", "#ffc107", "#dc3545"]

  /** `Math.abs`. */
  function Abs(x: int): nat {
    if x < 0 then -x else x
  }

  /** `getAssigneeColor`: the colour at |hash| mod 5. */
  function AssigneeColor(assignee: string): (colour: string)
    ensures colour in AssigneeColours
    ensures colour == AssigneeColours[Abs(ToInt32(Polynomial(Utf16(assignee)))) % 5]
  {
    HashIsWrappedPolynomial(Utf16(assignee));
    AssigneeColours[Abs(HashUnits(Utf16(assignee))) % |AssigneeColours|]
  }

  /** The empty name hashes to 0 and gets the first colour. */
  lemma EmptyAssigneeColour()
    ensures AssigneeColor("") == "#fd7e14"
  {
    assert Utf16("") == [];
  }
}
