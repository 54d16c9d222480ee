/** Device identity in the browser (frontend/app/lib/deviceUtils.js): the
    32-bit fold hash behind `generateDeviceId`, its `device_<hex>` rendering,
    the user-agent classifiers `getDeviceName` and `getDeviceType`, and the
    store-once `initializeDevice`. The navigator data string and the
    browser's `localStorage` are inputs and fields. */
module DeviceUtils {
  import opened Common
  import opened Text

  // ------------------------------------------------------ 32-bit arithmetic

  const TwoTo32: int := 0x1_0000_0000
  const TwoTo31: int := 0x8000_0000

  /** ECMAScript ToInt32, what `x | 0` and the operand conversion of `<<`
      do: reduce modulo 2^32 into the signed range. */
  function ToInt32(x: int): (r: int)
    ensures -TwoTo31 <= r < TwoTo31
    ensures (x - r) % TwoTo32 == 0
  {
    var m := x % TwoTo32;
    if m >= TwoTo31 then m - TwoTo32 else m
  }

  /** Values already in range are left alone. */
  lemma ToInt32Identity(x: int)
    requires -TwoTo31 <= x < TwoTo31
    ensures ToInt32(x) == x
  {
  }

  /** ToInt32 only sees its argument modulo 2^32. */
  lemma ToInt32Periodic(x: int, j: int)
    ensures ToInt32(x + j * TwoTo32) == ToInt32(x)
  {
    assert (x + j * TwoTo32) % TwoTo32 == x % TwoTo32;
  }

  /** `char.charCodeAt(0)` on one element of `Array.from(string)`: the
      element is a whole code point, and for one outside the Basic
      Multilingual Plane only its high surrogate is read. */
  function CharCode(c: char): (code: int)
    ensures 0 <= code < 0x1_0000
    ensures (c as int) < 0x1_0000 ==> code == c as int
    ensures (c as int) >= 0x1_0000 ==> 0xD800 <= code < 0xDC00
  {
    if (c as int) < 0x1_0000 then c as int
    else 0xD800 + ((c as int) - 0x1_0000) / 0x400
  }

  /** One step of the reducer: `((hash << 5) - hash + charCode) | 0`. */
  function Step(h: int, code: int): int
  {
    ToInt32(ToInt32(h * 32) - h + code)
  }

  /** The shift-and-subtract step is 31·h + c wrapped to signed 32 bits. */
  lemma StepIsTimes31(h: int, code: int)
    ensures Step(h, code) == ToInt32(31 * h + code)
  {
    var s := ToInt32(h * 32);
    var j := (h * 32 - s) / TwoTo32;
    assert h * 32 - s == j * TwoTo32;
    ToInt32Periodic(31 * h + code, -j);
    assert s - h + code == 31 * h + code + (-j) * TwoTo32;
  }

  /** The `reduce` over the characters of the data string, from 0. */
  function Hash(s: string): (h: int)
    ensures -TwoTo31 <= h < TwoTo31
  {
    if s == [] then 0
    else Step(Hash(s[..|s| - 1]), CharCode(s[|s| - 1]))
  }

  /** The fold starts at 0 and each character multiplies by 31, adds its
      code and wraps. */
  lemma HashAppend(s: string, c: char)
    ensures Hash([]) == 0
    ensures Hash(s + [c]) == ToInt32(31 * Hash(s) + CharCode(c))
  {
    assert (s + [c])[..|s|] == s;
    StepIsTimes31(Hash(s), CharCode(c));
  }

  /** `Math.abs(hash)`: at most 2^31, reached by the most negative hash. */
  function AbsHash(s: string): (n: nat)
    ensures n <= TwoTo31
    ensures n == Hash(s) || n == -Hash(s)
  {
    var h := Hash(s);
    if h < 0 then -h else h
  }

  // ----------------------------------------------------------- hexadecimal

  const HexDigits: string := "0123456789abcdef"

  function HexDigit(d: int): (c: char)
    requires 0 <= d < 16
    ensures c in HexDigits
  {
    HexDigits[d]
  }

  function DigitValue(c: char): (d: int)
    ensures 0 <= d < 16
  {
    if '0' <= c <= '9' then c as int - '0' as int
    else if 'a' <= c <= 'f' then c as int - 'a' as int + 10
    else 0
  }

  /** Reads a string of lowercase hex digits back as a number. */
  function FromHex(s: string): nat
  {
    if s == [] then 0 else FromHex(s[..|s| - 1]) * 16 + DigitValue(s[|s| - 1])
  }

  /** `n.toString(16)`: lowercase hex digits, most significant first, with
      no leading zero (0 itself is "0"); reading it back gives `n`. */
  function ToHex(n: nat): (s: string)
    ensures |s| >= 1
    ensures forall i :: 0 <= i < |s| ==> s[i] in HexDigits
    ensures s[0] == '0' ==> n == 0 && s == "0"
    ensures FromHex(s) == n
  {
    if n < 16 then [HexDigit(n)]
    else
      var s := ToHex(n / 16) + [HexDigit(n % 16)];
      assert s[..|s| - 1] == ToHex(n / 16);
      s
  }

  function Pow16(k: nat): (p: nat)
    ensures p >= 1
  {
    if k == 0 then 1 else 16 * Pow16(k - 1)
  }

  /** A number below 16^k takes at most k hex digits. */
  lemma {:induction false} ToHexLength(n: nat, k: nat)
    requires 1 <= k && n < Pow16(k)
    ensures |ToHex(n)| <= k
  {
    if n >= 16 {
      assert k >= 2;
      assert n / 16 < Pow16(k - 1);
      ToHexLength(n / 16, k - 1);
    }
  }

  // -------------------------------------------------------- the device id

  /** `generateDeviceId` for a given navigator data string:
      "device_" then the hex of the absolute hash. */
  function GenerateDeviceId(data: string): (id: string)
    ensures |id| > 7 && id[..7] == "device_"
    ensures forall i :: 7 <= i < |id| ==> id[i] in HexDigits
    ensures id[7] == '0' ==> id == "device_0"
    ensures FromHex(id[7..]) == AbsHash(data)
  {
    var hex := ToHex(AbsHash(data));
    assert ("device_" + hex)[7..] == hex;
    assert forall i :: 7 <= i < |"device_" + hex| ==> ("device_" + hex)[i] == hex[i - 7];
    "device_" + hex
  }

  /** The hex part has between 1 and 8 digits, so ids are 8 to 15
      characters long. */
  lemma DeviceIdLength(data: string)
    ensures 8 <= |GenerateDeviceId(data)| <= 15
  {
    assert Pow16(8) == 0x1_0000_0000;
    ToHexLength(AbsHash(data), 8);
  }

  // --------------------------------------------------- user-agent classes

  /** `getDeviceName`: the first of six substring tests that matches names
      the device. */
  function DeviceName(ua: string): (name: string)
    ensures Contains(ua, "Windows") ==> name == "Windows Desktop"
    ensures !Contains(ua, "Windows") && Contains(ua, "Macintosh") ==> name == "Mac Desktop"
    ensures name == "Unknown Device" <==>
      !Contains(ua, "Windows") && !Contains(ua, "Macintosh") && !Contains(ua, "Linux") &&
      !Contains(ua, "iPhone") && !Contains(ua, "iPad") && !Contains(ua, "Android")
  {
    if Contains(ua, "Windows") then "Windows Desktop"
    else if Contains(ua, "Macintosh") then "Mac Desktop"
    else if Contains(ua, "Linux") && !Contains(ua, "Android") then "Linux Desktop"
    else if Contains(ua, "iPhone") then "iPhone"
    else if Contains(ua, "iPad") then "iPad"
    else if Contains(ua, "Android") then "Android Device"
    else "Unknown Device"
  }

  /** A test and the name it gives, in priority order. */
  datatype NameRule = NameRule(marker: string, unless: string, name: string)

  /** The same rules as a table: a rule fires when the user agent contains
      its marker and not its exception ("" means no exception). */
  const NameRules: seq<NameRule> := [
    NameRule("Windows", "", "Windows Desktop"),
    NameRule("Macintosh", "", "Mac Desktop"),
    NameRule("Linux", "Android", "Linux Desktop"),
    NameRule("iPhone", "", "iPhone"),
    NameRule("iPad", "", "iPad"),
    NameRule("Android", "", "Android Device")
  ]

  predicate Fires(rule: NameRule, ua: string)
  {
    Contains(ua, rule.marker) && (rule.unless == [] || !Contains(ua, rule.unless))
  }

  /** The name of the first rule that fires, or "Unknown Device". */
  function FirstMatchingName(rules: seq<NameRule>, ua: string): string
  {
    if rules == [] then "Unknown Device"
    else if Fires(rules[0], ua) then rules[0].name
    else FirstMatchingName(rules[1..], ua)
  }

  /** The if-chain is the first-match reading of the rule table. */
  lemma DeviceNameIsFirstMatch(ua: string)
    ensures DeviceName(ua) == FirstMatchingName(NameRules, ua)
  {
    var r1 := NameRules[1..];
    var r2 := r1[1..];
    var r3 := r2[1..];
    var r4 := r3[1..];
    var r5 := r4[1..];
    assert r5 == [NameRule("Android", "", "Android Device")];
    assert FirstMatchingName(r5, ua) ==
      (if Contains(ua, "Android") then "Android Device" else "Unknown Device");
    assert FirstMatchingName(r4, ua) ==
      (if Contains(ua, "iPad") then "iPad" else FirstMatchingName(r5, ua));
    assert FirstMatchingName(r3, ua) ==
      (if Contains(ua, "iPhone") then "iPhone" else FirstMatchingName(r4, ua));
    assert FirstMatchingName(r2, ua) ==
      (if Contains(ua, "Linux") && !Contains(ua, "Android") then "Linux Desktop"
       else FirstMatchingName(r3, ua));
    assert FirstMatchingName(r1, ua) ==
      (if Contains(ua, "Macintosh") then "Mac Desktop" else FirstMatchingName(r2, ua));
  }

  /** `getDeviceType` as written. */
  function DeviceTypeAsWritten(ua: string): (t: string)
    ensures t == "mobile" || t == "tablet" || t == "desktop"
  {
    if Contains(ua, "iPhone") || (Contains(ua, "Android") && !Contains(ua, "iPad")) then "mobile"
    else if Contains(ua, "iPad") || (Contains(ua, "Android") && Contains(ua, "Tablet")) then "tablet"
    else "desktop"
  }

  /** As written, only "iPad" ever makes a tablet: an Android user agent
      without "iPad" was already classed as mobile, so the Android-tablet
      test is never what decides. */
  lemma AndroidTabletTestIsDead(ua: string)
    ensures DeviceTypeAsWritten(ua) == "tablet" <==> Contains(ua, "iPad") && !Contains(ua, "iPhone")
  {
  }

  /** A concrete Android tablet comes out as a phone. */
  lemma AndroidTabletClassedMobile()
    ensures DeviceTypeAsWritten("Android Tablet") == "mobile"
  {
    var ua := "Android Tablet";
    assert "Android" <= ua;
    PrefixContained(ua, "Android");
    assert 'P' in "iPad" && 'P' !in ua;
    MissingCharNotContained(ua, "iPad", 'P');
  }

  /** `getDeviceType` with the Android-tablet test reachable: an Android
      user agent that says "Tablet" is left for the tablet branch. */
  function DeviceType(ua: string): (t: string)
    ensures t == "mobile" || t == "tablet" || t == "desktop"
    ensures Contains(ua, "Android") && Contains(ua, "Tablet") && !Contains(ua, "iPhone") ==>
      t == "tablet"
    ensures Contains(ua, "iPad") && !Contains(ua, "iPhone") ==> t == "tablet"
  {
    if Contains(ua, "iPhone") ||
       (Contains(ua, "Android") && !Contains(ua, "iPad") && !Contains(ua, "Tablet")) then "mobile"
    else if Contains(ua, "iPad") || (Contains(ua, "Android") && Contains(ua, "Tablet")) then "tablet"
    else "desktop"
  }

  /** The correction changes exactly the Android tablets that mention
      neither "iPhone" nor "iPad". */
  lemma DeviceTypeCorrectionIsMinimal(ua: string)
    ensures DeviceType(ua) != DeviceTypeAsWritten(ua) <==>
      Contains(ua, "Android") && Contains(ua, "Tablet") &&
      !Contains(ua, "iPhone") && !Contains(ua, "iPad")
  {
  }

  // --------------------------------------------------------- stored id

  /** The id `initializeDevice` settles on: the stored one when it is
      non-empty, otherwise the one generated from the navigator data. */
  function ChosenDeviceId(stored: Option<string>, data: string): (id: string)
    ensures id != []
    ensures stored.Some? && stored.value != [] ==> id == stored.value
    ensures !(stored.Some? && stored.value != []) ==> id == GenerateDeviceId(data)
  {
    if stored.Some? && stored.value != [] then stored.value else GenerateDeviceId(data)
  }

  /** The browser's `localStorage` entry "device_id". */
  class DeviceStorage {
    var stored: Option<string>

    constructor (initial: Option<string>)
      ensures stored == initial
    {
      stored := initial;
    }

    /** `initializeDevice`: a stored non-empty id is returned as it is;
        otherwise (absent, or the falsy "") an id is generated from the
        navigator data, stored and returned. */
    method InitializeDevice(data: string) returns (id: string)
      modifies this
      ensures stored == Some(id) && id != []
      ensures id == ChosenDeviceId(old(stored), data)
      ensures old(stored).Some? && old(stored).value != [] ==> id == old(stored).value
      ensures !(old(stored).Some? && old(stored).value != []) ==> id == GenerateDeviceId(data)
    {
      var current := stored;
      if current.None? || current.value == [] {
        id := GenerateDeviceId(data);
        stored := Some(id);
      } else {
        id := current.value;
      }
    }

    /** Two successive initialisations give the same id, whatever the
        navigator data is the second time. */
    method InitializeTwice(data1: string, data2: string) returns (first: string, second: string)
      modifies this
      ensures first == second && stored == Some(first)
    {
      first := InitializeDevice(data1);
      second := InitializeDevice(data2);
    }
  }
}
