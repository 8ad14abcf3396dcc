/** The configuration loop of the firewall service, over a text buffer and an attribute struct. */
module ConfigParser {
  import opened Wrappers
  import opened Decimal
  import opened Config

  /** The position of the delimiter; negative when the line is too long or has none. */
  method GetIndexByParam(stroke: string, param: char) returns (index: int)
    ensures |stroke| > MAX_LINE ==> index == -2
    ensures |stroke| <= MAX_LINE ==> index == match Index(stroke, param) case None => -1 case Some(i) => i
  {
    if |stroke| > MAX_LINE {
      return -2;
    }
    var i := 0;
    while i < |stroke|
      invariant i <= |stroke| && forall j :: 0 <= j < i ==> stroke[j] != param
    {
      if stroke[i] == param {
        IndexIs(stroke, param, i);
        return i;
      }
      i := i + 1;
    }
    return -1;
  }

  /** Copies the line that starts at `before`, and returns the position of its newline; a NUL in it clears the flag. */
  method CopyLine(buffer: string, before: nat, flag: bool) returns (tmp: string, after: nat, flag': bool)
    requires before <= |buffer| && Index(buffer[before..], '\n').Some?
    ensures before <= after < |buffer| && after == before + Index(buffer[before..], '\n').value
    ensures tmp == buffer[before..after] == buffer[before..][..after - before]
    ensures flag' <==> flag && Index(tmp, '\0').None?
  {
    ghost var end := before + Index(buffer[before..], '\n').value;
    assert buffer[end] == '\n';
    forall k | before <= k < end ensures buffer[k] != '\n' {
      assert buffer[before..][k - before] != '\n';
    }
    var i := before;
    flag' := flag;
    while buffer[i] != '\n'
      invariant before <= i <= end
      invariant flag' <==> flag && forall k :: before <= k < i ==> buffer[k] != '\0'
      decreases end - i
    {
      if buffer[i] == '\0' {
        flag' := false;
      }
      i := i + 1;
    }
    after := i;
    assert after == end;
    tmp := "";
    var j := before;
    while j < after
      invariant before <= j <= after && tmp == buffer[before..j]
    {
      tmp := tmp + [buffer[j]];
      j := j + 1;
    }
    NulInLine(buffer, before, after);
  }

  lemma NulInLine(buffer: string, before: nat, after: nat)
    requires before <= after <= |buffer|
    ensures Index(buffer[before..after], '\0').None? <==> forall k :: before <= k < after ==> buffer[k] != '\0'
  {
    if Index(buffer[before..after], '\0').None? {
      forall k | before <= k < after ensures buffer[k] != '\0' {
        assert buffer[before..after][k - before] != '\0';
      }
    }
  }

  /** Copies the characters of s from index i on. */
  method CopyFrom(s: string, from: nat) returns (slice: string)
    requires from <= |s|
    ensures slice == s[from..]
  {
    slice := "";
    var i := from;
    while i < |s|
      invariant from <= i <= |s| && slice == s[from..i]
    {
      slice := slice + [s[i]];
      i := i + 1;
    }
  }

  class FwAttrs {
    var iface: string
    var filter: string
    var untrusted: Network
    var trusted: Network
    var packets: int

    ghost predicate Valid()
      reads this
    {
      |iface| == |filter| == FIELD
    }

    ghost function Value(): Attrs
      reads this
    {
      Attrs(iface, filter, untrusted, trusted, packets)
    }

    constructor ()
      ensures Valid() && Value() == ZEROED
    {
      iface, filter := Zeros(FIELD), Zeros(FIELD);
      untrusted, trusted, packets := Network(0, 0), Network(0, 0), 0;
    }

    /** Stores one value; false when the process exits because the address cannot be read. */
    method StoreValue(name: string, value: string, aton: Aton) returns (ok: bool)
      requires Valid() && KeyOf(name).Some? && Fits(KeyOf(name).value, value)
      modifies this
      ensures Valid()
      ensures ok <==> Store(old(Value()), KeyOf(name).value, value, aton).Some?
      ensures ok ==> Store(old(Value()), KeyOf(name).value, value, aton) == Some(Value())
      ensures !ok ==> Value() == old(Value())
    {
      ok := true;
      if name == "interface" {
        iface := Overlay(iface, value);
      } else if name == "filter" {
        filter := Overlay(filter, value);
      } else if name == "packet_num" {
        var rv := INF_COUNT;
        if !("inf" <= value) {
          rv := Atoi(value);
        }
        packets := rv;
      } else {
        var slash := Index(value, '/').value;
        var net := aton(value[..slash]);
        if net.None? {
          return false;
        }
        if name == "trusted_net" {
          trusted := Network(net.value, Atoi(value[slash + 1..]) % UINT_RANGE);
        } else {
          untrusted := Network(net.value, Atoi(value[slash + 1..]) % UINT_RANGE);
        }
      }
    }

    /** Takes one line apart and stores its value. */
    method UseLine(tmp: string, aton: Aton) returns (result: LineResult)
      requires Valid() && |tmp| <= MAX_LINE
      requires LineOf(tmp).Setting? ==>
                 Index(tmp, ':').value + 2 <= |tmp| && Fits(LineOf(tmp).key, LineOf(tmp).value)
      modifies this
      ensures Valid()
      ensures result.EndOfConfig? <==> LineOf(tmp).Last?
      ensures result.Stored? ==> Store(old(Value()), LineOf(tmp).key, LineOf(tmp).value, aton) == Some(Value())
      ensures result.BadAddress? ==> Store(old(Value()), LineOf(tmp).key, LineOf(tmp).value, aton) == None
      ensures !result.Stored? ==> Value() == old(Value())
    {
      hide Store, Fits, KeyOf, Atoi;
      var index := GetIndexByParam(tmp, ':');
      if index < 0 {
        return EndOfConfig;
      }
      var name := tmp[..index];
      if KeyOf(name).None? {
        return EndOfConfig;
      }
      var value := CopyFrom(tmp, index + 2);
      var ok := StoreValue(name, value, aton);
      return if ok then Stored else BadAddress;
    }

    /** The loop over the lines; what follows the copy reads `tmp` as a C string, up to its first NUL. */
    method ParseAndSerialize(buffer: string, aton: Aton) returns (code: Code)
      requires Valid() && Safe(buffer, Value(), aton)
      modifies this
      ensures Valid()
      ensures Parsed(Value(), code) == Parse(buffer, old(Value()), aton)
    {
      hide Safe, Parse, LineOf, Store, Fits, Index, StringIn;
      var flag, before := true, 0;
      assert buffer[0..] == buffer;
      while flag
        invariant before <= |buffer| && Valid()
        invariant flag ==>
            && Safe(buffer[before..], Value(), aton)
            && Parse(buffer[before..], Value(), aton) == Parse(buffer, old(Value()), aton)
        invariant !flag ==> Parsed(Value(), Normal) == Parse(buffer, old(Value()), aton)
        decreases flag, |buffer| - before
      {
        ParseStep(buffer[before..], Value(), aton);
        var tmp, after;
        tmp, after, flag := CopyLine(buffer, before, flag);
        var line := StringIn(tmp);
        if |line| > MAX_LINE {
          return Error;
        }
        assert buffer[before..][after - before + 1..] == buffer[after + 1..];
        before := after + 1;
        var result := UseLine(line, aton);
        match result
        case EndOfConfig => return Normal;
        case BadAddress => return Exited;
        case Stored =>
      }
      return Normal;
    }
  }

  datatype LineResult = EndOfConfig | BadAddress | Stored

  /** What the first line does to the rest of the parse. */
  lemma ParseStep(text: string, a: Attrs, aton: Aton)
    requires |a.iface| == |a.filter| == FIELD && Safe(text, a, aton)
    ensures Index(text, '\n').Some?
    ensures var end := Index(text, '\n').value;
      var line, stop := StringIn(text[..end]), Index(text[..end], '\0').Some?;
      if |line| > MAX_LINE then Parse(text, a, aton) == Parsed(a, Error)
      else match LineOf(line)
        case Last => Parse(text, a, aton) == Parsed(a, Normal)
        case Setting(k, value) =>
          && Index(line, ':').Some? && Index(line, ':').value + 2 <= |line| && Fits(k, value)
          && match Store(a, k, value, aton)
             case None => Parse(text, a, aton) == Parsed(a, Exited)
             case Some(a') =>
               if stop then Parse(text, a, aton) == Parsed(a', Normal)
               else Safe(text[end + 1..], a', aton) && Parse(text, a, aton) == Parse(text[end + 1..], a', aton)
  {
  }
}
