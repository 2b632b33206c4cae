/**
 * src/components/DFUModal.js: `increaseMAC`, which derives the address the
 * peripheral advertises in bootloader mode (the MAC with its last segment
 * incremented), and the null guard in `loadFW` that uses it.
 */
module DfuModal {
  import opened Wrappers

  // ---------------------------------------------------------------------
  // String.prototype.split(":") and Array.prototype.join(":")
  // ---------------------------------------------------------------------

  /** `s.split(":")`: never empty, and no part holds a separator. */
  function Split(s: string): (parts: seq<string>)
    ensures |parts| >= 1
    ensures forall p :: p in parts ==> ':' !in p
  {
    if |s| == 0 then [""]
    else
      var rest := Split(s[1..]);
      if s[0] == ':' then [""] + rest
      else [[s[0]] + rest[0]] + rest[1..]
  }

  /** `parts.join(":")`. */
  function Join(parts: seq<string>): string
    requires |parts| >= 1
  {
    if |parts| == 1 then parts[0] else parts[0] + ":" + Join(parts[1..])
  }

  /** Joining the parts of a split gives back the text. */
  lemma {:induction false} JoinSplit(s: string)
    ensures Join(Split(s)) == s
  {
    if |s| > 0 {
      JoinSplit(s[1..]);
      var rest := Split(s[1..]);
      if s[0] == ':' {
        assert s == [s[0]] + s[1..];
      } else if |rest| == 1 {
        assert s == [s[0]] + s[1..];
      } else {
        assert Join(rest) == rest[0] + ":" + Join(rest[1..]);
        assert s == [s[0]] + s[1..];
      }
    }
  }

  /** Splitting a join of separator-free parts gives back the parts. */
  lemma {:induction false} SplitJoin(parts: seq<string>)
    requires |parts| >= 1
    requires forall p :: p in parts ==> ':' !in p
    ensures Split(Join(parts)) == parts
    decreases |parts|, |parts[0]|
  {
    if |parts| == 1 {
      SplitNoSeparator(parts[0]);
    } else {
      SplitJoin(parts[1..]);
      SplitPrefix(parts[0], Join(parts[1..]));
      assert parts == [parts[0]] + parts[1..];
    }
  }

  /** Text without a separator is a single part. */
  lemma {:induction false} SplitNoSeparator(s: string)
    requires ':' !in s
    ensures Split(s) == [s]
  {
    if |s| > 0 {
      SplitNoSeparator(s[1..]);
      assert s == [s[0]] + s[1..];
    }
  }

  /** A separator-free head followed by ":" becomes the first part. */
  lemma {:induction false} SplitPrefix(head: string, tail: string)
    requires ':' !in head
    ensures Split(head + ":" + tail) == [head] + Split(tail)
  {
    if |head| == 0 {
      assert head + ":" + tail == [':'] + tail;
      assert (head + ":" + tail)[1..] == tail;
    } else {
      assert (head + ":" + tail)[1..] == head[1..] + ":" + tail;
      SplitPrefix(head[1..], tail);
      assert [head[0]] + head[1..] == head;
    }
  }

  // ---------------------------------------------------------------------
  // Unary plus and Number.prototype.toString on a MAC segment
  // ---------------------------------------------------------------------

  /** The result of `+segment`: a non-negative integer, or NaN. */
  datatype JsNumber = Finite(n: nat) | NaN

  predicate IsDigit(c: char)
  {
    '0' <= c <= '9'
  }

  predicate AllDigits(s: string)
  {
    forall i :: 0 <= i < |s| ==> IsDigit(s[i])
  }

  /** The value of a string of decimal digits. */
  function DecimalValue(s: string): nat
    requires AllDigits(s)
  {
    if |s| == 0 then 0
    else 10 * DecimalValue(s[..|s| - 1]) + (s[|s| - 1] - '0') as nat
  }

  /** `n.toString()` for a non-negative integer: decimal, no leading zeros. */
  function DecimalString(n: nat): (s: string)
    ensures |s| >= 1 && AllDigits(s)
    ensures |s| > 1 ==> s[0] != '0'
  {
    if n < 10 then [('0' as int + n) as char]
    else DecimalString(n / 10) + [('0' as int + n % 10) as char]
  }

  /** Reading back what `toString` wrote gives the number. */
  lemma {:induction false} DecimalValueOfString(n: nat)
    ensures DecimalValue(DecimalString(n)) == n
  {
    if n >= 10 {
      DecimalValueOfString(n / 10);
      var s := DecimalString(n);
      assert s[..|s| - 1] == DecimalString(n / 10);
    }
  }

  /** `+segment`: the empty segment is 0, a run of decimal digits its value, anything else NaN. */
  function ToNumber(segment: string): (x: JsNumber)
    ensures x.NaN? <==> !AllDigits(segment)
    ensures x.Finite? ==> x.n == DecimalValue(segment)
  {
    if AllDigits(segment) then Finite(DecimalValue(segment)) else NaN
  }

  /** `(+segment + 1).toString()`. */
  function Increment(segment: string): (next: string)
    ensures next == "NaN" <==> !AllDigits(segment)
    ensures AllDigits(segment) ==> AllDigits(next) && DecimalValue(next) == DecimalValue(segment) + 1
    ensures |next| >= 1 && ':' !in next
  {
    match ToNumber(segment)
    case NaN => "NaN"
    case Finite(n) =>
      DecimalValueOfString(n + 1);
      DecimalString(n + 1)
  }

  /** The segment is read as decimal, not hexadecimal: "22" becomes "23" and "09" becomes "10". */
  lemma IncrementDecimalExamples()
    ensures Increment("22") == "23"
    ensures Increment("09") == "10"
  {
    assert AllDigits("22") && AllDigits("09");
    assert DecimalValue("22") == 22 by { assert "22"[..1] == "2"; }
    assert DecimalValue("09") == 9 by { assert "09"[..1] == "0"; }
    assert DecimalString(23) == DecimalString(2) + ['3'];
    assert DecimalString(10) == DecimalString(1) + ['0'];
  }

  /** Leading zeros and the empty segment: "00" and "" both become "1". */
  lemma IncrementZeroExamples()
    ensures Increment("00") == "1"
    ensures Increment("") == "1"
  {
    assert AllDigits("00");
    assert DecimalValue("00") == 0 by { assert "00"[..1] == "0"; }
  }

  /** A segment with a hexadecimal letter is not a number. */
  lemma IncrementHexExamples()
    ensures Increment("FF") == "NaN"
    ensures Increment("2A") == "NaN"
  {
    assert !IsDigit("FF"[0]);
    assert !IsDigit("2A"[1]);
  }

  // ---------------------------------------------------------------------
  // increaseMAC and loadFW
  // ---------------------------------------------------------------------

  /**
   * increaseMAC: `splits[splits.length-1] = (+splits.pop() + 1).toString()`.
   * The target index is taken before `pop` shortens the array, so the
   * assignment puts the incremented segment back where the old one was. A
   * `mac` that is not a string makes `split` throw, and the catch returns null.
   */
  method IncreaseMac(mac: Option<string>) returns (r: Option<string>)
    ensures r.None? <==> mac.None?
    ensures r.Some? ==>
      var before := Split(mac.value);
      Split(r.value) == before[..|before| - 1] + [Increment(before[|before| - 1])]
    ensures r.Some? ==> |r.value| > 0
  {
    if mac.None? {
      return None;
    }
    var splits := Split(mac.value);
    var target := |splits| - 1;
    var last := splits[|splits| - 1];
    splits := splits[..|splits| - 1];
    var next := Increment(last);
    assert target == |splits|;
    splits := splits + [next];
    assert forall p :: p in splits ==> ':' !in p;
    SplitJoin(splits);
    r := Some(Join(splits));
  }

  /** What loadFW sets going, in order. */
  datatype DfuStep = StartDfu | NordicTransfer(deviceAddress: string)

  /**
   * loadFW: the modal's DFU state is started first; the NordicDFU transfer
   * to the increased address follows only when increaseMAC gave an address.
   */
  method LoadFw(mac: Option<string>) returns (steps: seq<DfuStep>)
    ensures 1 <= |steps| <= 2 && steps[0] == StartDfu
    ensures |steps| == 2 <==> mac.Some?
    ensures |steps| == 2 ==> (steps[1].NordicTransfer? &&
      var before := Split(mac.value);
      Split(steps[1].deviceAddress) == before[..|before| - 1] + [Increment(before[|before| - 1])])
  {
    steps := [StartDfu];
    var increasedMac := IncreaseMac(mac);
    if increasedMac.None? || increasedMac.value == "" {
      return;
    }
    steps := steps + [NordicTransfer(increasedMac.value)];
  }

  /** increaseMAC keeps the number of segments and every segment but the last. */
  lemma IncreaseMacKeepsPrefix(mac: string, increased: string, i: nat)
    requires var before := Split(mac);
      Split(increased) == before[..|before| - 1] + [Increment(before[|before| - 1])]
    requires i < |Split(mac)| - 1
    ensures |Split(increased)| == |Split(mac)|
    ensures Split(increased)[i] == Split(mac)[i]
  {
  }
}
