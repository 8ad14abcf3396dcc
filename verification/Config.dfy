/** Decimal numbers as the configuration files write them and `atoi` reads them. */
module Decimal {
  function Dec(n: nat): (s: string)
    ensures s != "" && forall i :: 0 <= i < |s| ==> '0' <= s[i] <= '9'
  {
    var last := ['0' + (n % 10) as char];
    if n < 10 then last else Dec(n / 10) + last
  }

  function DecInt(n: int): string {
    if n < 0 then "-" + Dec(-n) else Dec(n)
  }

  predicate IsSpace(c: char) {
    c == ' ' || '\t' <= c <= '\r'
  }

  function AtoiDigits(s: string, acc: nat): nat {
    if s == "" || !('0' <= s[0] <= '9') then acc else AtoiDigits(s[1..], 10 * acc + (s[0] - '0') as nat)
  }

  function Atoi(s: string): int {
    if s == "" then 0
    else if IsSpace(s[0]) then Atoi(s[1..])
    else if s[0] == '-' then -(AtoiDigits(s[1..], 0) as int)
    else if s[0] == '+' then AtoiDigits(s[1..], 0)
    else AtoiDigits(s, 0)
  }

  lemma {:induction false} AtoiSnoc(s: string, c: char, acc: nat)
    requires forall i :: 0 <= i < |s| ==> '0' <= s[i] <= '9'
    requires '0' <= c <= '9'
    ensures AtoiDigits(s + [c], acc) == 10 * AtoiDigits(s, acc) + (c - '0') as nat
  {
    if s == "" {
      assert s + [c] == [c] && [c][1..] == "";
    } else {
      assert (s + [c])[1..] == s[1..] + [c];
      AtoiSnoc(s[1..], c, 10 * acc + (s[0] - '0') as nat);
    }
  }

  lemma {:induction false} DigitsRoundTrip(n: nat)
    ensures AtoiDigits(Dec(n), 0) == n
  {
    var last := '0' + (n % 10) as char;
    if n < 10 {
      assert [last][1..] == "";
    } else {
      DigitsRoundTrip(n / 10);
      AtoiSnoc(Dec(n / 10), last, 0);
    }
  }

  lemma AtoiRoundTrip(n: int)
    ensures Atoi(DecInt(n)) == n
  {
    DigitsRoundTrip(if n < 0 then -n else n);
    if n < 0 {
      assert ("-" + Dec(-n))[1..] == Dec(-n);
    }
  }

  /** Reading stops at the first character that is no digit. */
  predicate NoDigitFirst(tail: string) {
    tail == "" || !('0' <= tail[0] <= '9')
  }

  lemma {:induction false} DigitsThenTail(s: string, tail: string, acc: nat)
    requires forall i :: 0 <= i < |s| ==> '0' <= s[i] <= '9'
    requires NoDigitFirst(tail)
    ensures AtoiDigits(s + tail, acc) == AtoiDigits(s, acc)
  {
    if s == "" {
      assert s + tail == tail;
    } else {
      assert (s + tail)[1..] == s[1..] + tail;
      DigitsThenTail(s[1..], tail, 10 * acc + (s[0] - '0') as nat);
    }
  }

  lemma {:induction false} BlanksAreSkipped(blanks: string, s: string)
    requires forall i :: 0 <= i < |blanks| ==> IsSpace(blanks[i])
    ensures Atoi(blanks + s) == Atoi(s)
  {
    if blanks == "" {
      assert blanks + s == s;
    } else {
      assert (blanks + s)[1..] == blanks[1..] + s;
      BlanksAreSkipped(blanks[1..], s);
    }
  }

  lemma PlainThenTail(n: nat, tail: string)
    requires NoDigitFirst(tail)
    ensures Atoi(Dec(n) + tail) == n && AtoiDigits(Dec(n) + tail, 0) == n
  {
    DigitsRoundTrip(n);
    DigitsThenTail(Dec(n), tail, 0);
    var s := Dec(n) + tail;
    assert s[0] == Dec(n)[0];
    hide Dec, AtoiDigits;
  }

  lemma SignThenTail(n: nat, tail: string)
    requires NoDigitFirst(tail)
    ensures Atoi("-" + (Dec(n) + tail)) == -(n as int) && Atoi("+" + (Dec(n) + tail)) == n
  {
    PlainThenTail(n, tail);
    hide Dec, AtoiDigits;
    assert ("-" + (Dec(n) + tail))[1..] == Dec(n) + tail && ("+" + (Dec(n) + tail))[1..] == Dec(n) + tail;
  }

  lemma DecIntThenTail(n: int, tail: string)
    requires NoDigitFirst(tail)
    ensures Atoi(DecInt(n) + tail) == n
  {
    hide Dec, Atoi, AtoiDigits, NoDigitFirst;
    if n < 0 {
      SignThenTail(-n, tail);
      assert DecInt(n) + tail == "-" + (Dec(-n) + tail);
    } else {
      PlainThenTail(n, tail);
    }
  }

  /** Leading blanks, a plus sign, and text after the digits make no difference; without digits the value is 0. */
  lemma AtoiReadsPrefix(blanks: string, n: int, tail: string)
    requires forall i :: 0 <= i < |blanks| ==> IsSpace(blanks[i])
    requires NoDigitFirst(tail)
    ensures Atoi(blanks + (DecInt(n) + tail)) == n
    ensures n >= 0 ==> Atoi(blanks + ("+" + (Dec(n) + tail))) == n
    ensures tail == "" || !(IsSpace(tail[0]) || tail[0] == '-' || tail[0] == '+') ==> Atoi(blanks + tail) == 0
  {
    hide *;
    NoNumber(tail);
    BlanksAreSkipped(blanks, tail);
    BlanksAreSkipped(blanks, DecInt(n) + tail);
    DecIntThenTail(n, tail);
    if n >= 0 {
      BlanksAreSkipped(blanks, "+" + (Dec(n) + tail));
      SignThenTail(n, tail);
    }
  }

  lemma NoNumber(s: string)
    requires NoDigitFirst(s)
    ensures s == "" || !(IsSpace(s[0]) || s[0] == '-' || s[0] == '+') ==> Atoi(s) == 0
  {
  }
}

/** The line-oriented configuration of the firewall service. */
module Config {
  import opened Wrappers
  import opened Decimal

  const MAX_LINE: nat := 168
  const FIELD: nat := 16        // the size of the two text fields
  const IP_PREFIX: nat := 15    // the size of the buffer for a dotted address
  const INF_COUNT: int := -1
  const UINT_RANGE: nat := 0x1_0000_0000

  datatype Network = Network(ipPrefix: nat, netmask: nat)

  /** The attributes; the text fields are arrays of FIELD characters. */
  datatype Attrs = Attrs(iface: string, filter: string, untrusted: Network, trusted: Network, packets: int)

  function Zeros(n: nat): string {
    seq(n, _ => '\0')
  }

  const ZEROED := Attrs(Zeros(FIELD), Zeros(FIELD), Network(0, 0), Network(0, 0), 0)

  /** `strncpy(dest, src, strlen(src))`: no terminator is written. */
  function Overlay(dest: string, src: string): string
    requires |src| <= |dest|
  {
    src + dest[|src|..]
  }

  /** The first index of c, or None. */
  function Index(s: string, c: char): (r: Option<nat>)
    ensures r.Some? ==> r.value < |s| && s[r.value] == c && forall i :: 0 <= i < r.value ==> s[i] != c
    ensures r.None? ==> forall i :: 0 <= i < |s| ==> s[i] != c
  {
    if s == "" then None
    else if s[0] == c then Some(0)
    else match Index(s[1..], c)
      case None => None
      case Some(i) => Some(i + 1)
  }

  lemma IndexIs(s: string, c: char, i: nat)
    requires i < |s| && s[i] == c && forall j :: 0 <= j < i ==> s[j] != c
    ensures Index(s, c) == Some(i)
  {
  }

  /** The string in a zero-terminated array. */
  function StringIn(field: string): string {
    match Index(field, '\0')
    case None => field
    case Some(n) => field[..n]
  }

  // ---------- One line ----------

  datatype Key = Interface | Filter | PacketNum | UntrustedNet | TrustedNet

  function Name(k: Key): string {
    match k
    case Interface => "interface"
    case Filter => "filter"
    case PacketNum => "packet_num"
    case UntrustedNet => "untrusted_net"
    case TrustedNet => "trusted_net"
  }

  function KeyOf(name: string): Option<Key> {
    if name == "interface" then Some(Interface)
    else if name == "filter" then Some(Filter)
    else if name == "packet_num" then Some(PacketNum)
    else if name == "untrusted_net" then Some(UntrustedNet)
    else if name == "trusted_net" then Some(TrustedNet)
    else None
  }

  /** `inet_aton`, as a parameter. */
  type Aton = string -> Option<nat>

  /** The buffers that the value is copied to are large enough, and a network value has its slash. */
  predicate Fits(k: Key, value: string) {
    match k
    case Interface => |value| <= FIELD
    case Filter => |value| <= FIELD
    case PacketNum => true
    case _ => Index(value, '/').Some? && Index(value, '/').value < IP_PREFIX
  }

  function ParseNetwork(value: string, aton: Aton): Option<Network>
    requires Index(value, '/').Some?
  {
    var slash := Index(value, '/').value;
    match aton(value[..slash])
    case None => None
    case Some(ip) => Some(Network(ip, Atoi(value[slash + 1..]) % UINT_RANGE))
  }

  function ParsePackets(value: string): int {
    if "inf" <= value then INF_COUNT else Atoi(value)
  }

  /** The attributes after one known line, or None when the process exits over a bad address. */
  function Store(a: Attrs, k: Key, value: string, aton: Aton): Option<Attrs>
    requires |a.iface| == |a.filter| == FIELD && Fits(k, value)
  {
    match k
    case Interface => Some(a.(iface := Overlay(a.iface, value)))
    case Filter => Some(a.(filter := Overlay(a.filter, value)))
    case PacketNum => Some(a.(packets := ParsePackets(value)))
    case UntrustedNet =>
      (match ParseNetwork(value, aton) case None => None case Some(n) => Some(a.(untrusted := n)))
    case TrustedNet =>
      (match ParseNetwork(value, aton) case None => None case Some(n) => Some(a.(trusted := n)))
  }

  /** What a line is: one that ends the parse, or a key with its value. */
  datatype Line = Last | Setting(key: Key, value: string)

  function LineOf(line: string): Line {
    match Index(line, ':')
    case None => Last
    case Some(i) =>
      match KeyOf(line[..i])
      case None => Last
      case Some(k) => Setting(k, if i + 2 <= |line| then line[i + 2..] else "")
  }

  // ---------- The whole text ----------

  datatype Code = Normal | Error | Exited

  datatype Parsed = Parsed(attrs: Attrs, code: Code)

  /** The first line as the parser takes it: up to its newline, and cut at a NUL, which makes it the last one read. */
  datatype Head = Head(line: string, rest: string, stop: bool)

  function HeadOf(text: string): (h: Head)
    requires Index(text, '\n').Some?
    ensures |h.rest| < |text|
  {
    var end := Index(text, '\n').value;
    Head(StringIn(text[..end]), text[end + 1..], Index(text[..end], '\0').Some?)
  }

  /** Every line up to the one that ends the parse is complete: it has a newline, a character after its delimiter, and fits. */
  ghost predicate Safe(text: string, a: Attrs, aton: Aton)
    requires |a.iface| == |a.filter| == FIELD
    decreases |text|
  {
    && Index(text, '\n').Some?
    && var Head(line, rest, stop) := HeadOf(text);
       |line| <= MAX_LINE && LineOf(line).Setting? ==>
         && Index(line, ':').value + 2 <= |line|
         && Fits(LineOf(line).key, LineOf(line).value)
         && (!stop && Store(a, LineOf(line).key, LineOf(line).value, aton).Some? ==>
               Safe(rest, Store(a, LineOf(line).key, LineOf(line).value, aton).value, aton))
  }

  ghost function Parse(text: string, a: Attrs, aton: Aton): Parsed
    requires |a.iface| == |a.filter| == FIELD && Safe(text, a, aton)
    decreases |text|
  {
    var Head(line, rest, stop) := HeadOf(text);
    if |line| > MAX_LINE then Parsed(a, Error)
    else match LineOf(line)
      case Last => Parsed(a, Normal)
      case Setting(k, value) =>
        match Store(a, k, value, aton)
        case None => Parsed(a, Exited)
        case Some(a') => if stop then Parsed(a', Normal) else Parse(rest, a', aton)
  }

  // ---------- Round trip ----------

  /** A setting to be written to the file; packet_num None stands for "inf". */
  datatype Entry =
    | ForInterface(name: string)
    | ForFilter(name: string)
    | ForPackets(n: Option<int>)
    | ForUntrusted(ip: string, len: nat)
    | ForTrusted(ip: string, len: nat)

  function EntryKey(e: Entry): Key {
    match e
    case ForInterface(_) => Interface
    case ForFilter(_) => Filter
    case ForPackets(_) => PacketNum
    case ForUntrusted(_, _) => UntrustedNet
    case ForTrusted(_, _) => TrustedNet
  }

  function EntryValue(e: Entry): string {
    match e
    case ForInterface(name) => name
    case ForFilter(name) => name
    case ForPackets(None) => "inf"
    case ForPackets(Some(n)) => DecInt(n)
    case ForUntrusted(ip, len) => ip + "/" + Dec(len)
    case ForTrusted(ip, len) => ip + "/" + Dec(len)
  }

  function EntryLine(e: Entry): string {
    Name(EntryKey(e)) + ": " + EntryValue(e)
  }

  ghost predicate Plain(s: string) {
    forall i :: 0 <= i < |s| ==> s[i] != '\n' && s[i] != '\0'
  }

  /** The value is within the limits of the line and of the buffers, with room for a terminator. */
  ghost predicate EntryOk(e: Entry, aton: Aton) {
    && Plain(EntryValue(e)) && |EntryLine(e)| <= MAX_LINE
    && match e
       case ForInterface(name) => |name| < FIELD
       case ForFilter(name) => |name| < FIELD
       case ForPackets(n) => n.Some? ==> -0x8000_0000 <= n.value < 0x8000_0000
       case ForUntrusted(ip, len) => |ip| < IP_PREFIX && Index(ip, '/').None? && aton(ip).Some? && len < 0x8000_0000
       case ForTrusted(ip, len) => |ip| < IP_PREFIX && Index(ip, '/').None? && aton(ip).Some? && len < 0x8000_0000
  }

  /** What an entry means for the attributes. */
  function StoreEntry(a: Attrs, e: Entry, aton: Aton): Attrs
    requires |a.iface| == |a.filter| == FIELD
    requires e.ForInterface? || e.ForFilter? ==> |e.name| < FIELD
  {
    match e
    case ForInterface(name) => a.(iface := Overlay(a.iface, name))
    case ForFilter(name) => a.(filter := Overlay(a.filter, name))
    case ForPackets(n) => a.(packets := if n.None? then INF_COUNT else n.value)
    case ForUntrusted(ip, len) => if aton(ip).Some? then a.(untrusted := Network(aton(ip).value, len)) else a
    case ForTrusted(ip, len) => if aton(ip).Some? then a.(trusted := Network(aton(ip).value, len)) else a
  }

  ghost predicate AllOk(entries: seq<Entry>, aton: Aton) {
    forall i :: 0 <= i < |entries| ==> EntryOk(entries[i], aton)
  }

  ghost function StoreAll(a: Attrs, entries: seq<Entry>, aton: Aton): (r: Attrs)
    requires |a.iface| == |a.filter| == FIELD && AllOk(entries, aton)
    ensures |r.iface| == |r.filter| == FIELD
    decreases |entries|
  {
    if entries == [] then a
    else
      assert EntryOk(entries[0], aton);
      StoreAll(StoreEntry(a, entries[0], aton), entries[1..], aton)
  }

  function PrintAll(entries: seq<Entry>): string {
    if entries == [] then "" else EntryLine(entries[0]) + "\n" + PrintAll(entries[1..])
  }

  lemma NameHasNoColon(k: Key)
    ensures forall i :: 0 <= i < |Name(k)| ==> Name(k)[i] != ':' && Name(k)[i] != '\n'
    ensures KeyOf(Name(k)) == Some(k)
  {
  }

  /** A printed line is read as its key and value, even if the value has further colons. */
  lemma LineRoundTrip(e: Entry)
    ensures var line := EntryLine(e);
      && LineOf(line) == Setting(EntryKey(e), EntryValue(e))
      && Index(line, ':') == Some(|Name(EntryKey(e))|)
  {
    var name, line := Name(EntryKey(e)), EntryLine(e);
    NameHasNoColon(EntryKey(e));
    hide Name, KeyOf, EntryValue, EntryKey;
    assert line[..|name|] == name && line[|name|] == ':';
    IndexIs(line, ':', |name|);
    assert line[|name| + 2..] == EntryValue(e);
  }

  lemma {:induction false} NetworkRoundTrip(ip: string, len: nat, aton: Aton)
    requires |ip| < IP_PREFIX && Index(ip, '/').None? && aton(ip).Some? && len < 0x8000_0000
    ensures Index(ip + "/" + Dec(len), '/') == Some(|ip|)
    ensures ParseNetwork(ip + "/" + Dec(len), aton) == Some(Network(aton(ip).value, len))
  {
    var value := ip + "/" + Dec(len);
    AtoiRoundTrip(len);
    hide Dec, Atoi;
    assert value[..|ip|] == ip && value[|ip|] == '/' && value[|ip| + 1..] == Dec(len);
    IndexIs(value, '/', |ip|);
  }

  /** Storing a printed value stores what the entry means. */
  lemma StoreRoundTrip(a: Attrs, e: Entry, aton: Aton)
    requires |a.iface| == |a.filter| == FIELD && EntryOk(e, aton)
    ensures Fits(EntryKey(e), EntryValue(e))
    ensures Store(a, EntryKey(e), EntryValue(e), aton) == Some(StoreEntry(a, e, aton))
  {
    match e
    case ForUntrusted(ip, len) => NetworkRoundTrip(ip, len, aton);
    case ForTrusted(ip, len) => NetworkRoundTrip(ip, len, aton);
    case ForPackets(Some(n)) =>
      AtoiRoundTrip(n);
      assert DecInt(n)[0] == '-' || '0' <= DecInt(n)[0] <= '9';
      assert "inf"[0] == 'i';
    case _ =>
  }

  /** A packet number is unlimited if it begins with "inf", whatever follows, and else read up to its first non-digit. */
  lemma PacketsValue(blanks: string, n: int, tail: string)
    requires forall i :: 0 <= i < |blanks| ==> IsSpace(blanks[i])
    requires NoDigitFirst(tail)
    ensures ParsePackets("inf" + tail) == -1
    ensures ParsePackets(blanks + (DecInt(n) + tail)) == n
  {
    AtoiReadsPrefix(blanks, n, tail);
    var value := blanks + (DecInt(n) + tail);
    assert value[0] == if blanks != "" then blanks[0] else DecInt(n)[0];
    assert DecInt(n)[0] == '-' || '0' <= DecInt(n)[0] <= '9';
    assert "inf"[0] == 'i';
    hide Atoi, DecInt, Dec;
    assert "inf" <= "inf" + tail;
  }

  lemma FirstLine(line: string, rest: string)
    requires Plain(line)
    ensures var text := line + "\n" + rest;
      Index(text, '\n').Some? && HeadOf(text) == Head(line, rest, false)
  {
    var text := line + "\n" + rest;
    assert text[..|line|] == line && text[|line|] == '\n' && text[|line| + 1..] == rest;
    IndexIs(text, '\n', |line|);
    assert Index(line, '\0').None?;
  }

  lemma EntryLineIsPlain(e: Entry, aton: Aton)
    requires EntryOk(e, aton)
    ensures Plain(EntryLine(e))
  {
    NamesArePlain(EntryKey(e));
    hide Name, EntryValue;
  }

  lemma NamesArePlain(k: Key)
    ensures Plain(Name(k))
  {
  }

  /** Text after the first line without delimiter or with an unknown key never affects the result. */
  lemma LastLineEndsParse(line: string, rest: string, a: Attrs, aton: Aton)
    requires |a.iface| == |a.filter| == FIELD
    requires Plain(line) && |line| <= MAX_LINE && LineOf(line).Last?
    ensures Safe(line + "\n" + rest, a, aton)
    ensures Parse(line + "\n" + rest, a, aton) == Parsed(a, Normal)
  {
    FirstLine(line, rest);
    hide Index, LineOf, HeadOf;
  }

  /** A printed entry in front of a text is stored before the rest is parsed. */
  lemma ParseEntry(e: Entry, tail: string, a: Attrs, aton: Aton)
    requires |a.iface| == |a.filter| == FIELD && EntryOk(e, aton) && Safe(tail, StoreEntry(a, e, aton), aton)
    ensures Safe(EntryLine(e) + "\n" + tail, a, aton)
    ensures Parse(EntryLine(e) + "\n" + tail, a, aton) == Parse(tail, StoreEntry(a, e, aton), aton)
  {
    EntryLineIsPlain(e, aton);
    FirstLine(EntryLine(e), tail);
    LineRoundTrip(e);
    StoreRoundTrip(a, e, aton);
    hide Index, LineOf, HeadOf, EntryLine, Store, StoreEntry, Fits, EntryKey, EntryValue;
  }

  /** Printed entries in front of any text are stored in order before that text is parsed. */
  lemma {:induction false} EntriesAreStored(entries: seq<Entry>, tail: string, a: Attrs, aton: Aton)
    requires |a.iface| == |a.filter| == FIELD && AllOk(entries, aton)
    requires Safe(tail, StoreAll(a, entries, aton), aton)
    ensures Safe(PrintAll(entries) + tail, a, aton)
    ensures Parse(PrintAll(entries) + tail, a, aton) == Parse(tail, StoreAll(a, entries, aton), aton)
    decreases |entries|
  {
    if entries == [] {
      assert PrintAll(entries) + tail == tail;
    } else {
      var e := entries[0];
      assert EntryOk(e, aton);
      assert PrintAll(entries) + tail == EntryLine(e) + "\n" + (PrintAll(entries[1..]) + tail);
      hide Index, LineOf, EntryLine, StoreEntry, PrintAll, EntryOk, Safe, Parse;
      EntriesAreStored(entries[1..], tail, StoreEntry(a, e, aton), aton);
      ParseEntry(e, PrintAll(entries[1..]) + tail, a, aton);
    }
  }

  /** Parsing printed entries, closed by a line that ends the parse, stores them all and ignores the rest. */
  lemma ConfigRoundTrip(entries: seq<Entry>, last: string, rest: string, a: Attrs, aton: Aton)
    requires |a.iface| == |a.filter| == FIELD && AllOk(entries, aton)
    requires Plain(last) && |last| <= MAX_LINE && LineOf(last).Last?
    ensures var text := PrintAll(entries) + (last + "\n" + rest);
      Safe(text, a, aton) && Parse(text, a, aton) == Parsed(StoreAll(a, entries, aton), Normal)
  {
    LastLineEndsParse(last, rest, StoreAll(a, entries, aton), aton);
    EntriesAreStored(entries, last + "\n" + rest, a, aton);
  }

  /** A line that is too long is an error, after the entries before it were stored. */
  lemma {:induction false} LongLineIsAnError(entries: seq<Entry>, line: string, rest: string, a: Attrs, aton: Aton)
    requires |a.iface| == |a.filter| == FIELD && AllOk(entries, aton)
    requires Plain(line) && |line| > MAX_LINE
    ensures var text := PrintAll(entries) + (line + "\n" + rest);
      Safe(text, a, aton) && Parse(text, a, aton) == Parsed(StoreAll(a, entries, aton), Error)
  {
    FirstLine(line, rest);
    hide Index, LineOf, HeadOf, PrintAll;
    EntriesAreStored(entries, line + "\n" + rest, a, aton);
  }

  /** An address that cannot be read ends the process, after the settings before it were stored. */
  lemma {:induction false} BadAddressExits(entries: seq<Entry>, e: Entry, rest: string, a: Attrs, aton: Aton)
    requires |a.iface| == |a.filter| == FIELD && AllOk(entries, aton)
    requires e.ForUntrusted? || e.ForTrusted?
    requires |e.ip| < IP_PREFIX && Index(e.ip, '/').None? && aton(e.ip).None?
    requires Plain(EntryLine(e)) && |EntryLine(e)| <= MAX_LINE
    ensures var text := PrintAll(entries) + (EntryLine(e) + "\n" + rest);
      Safe(text, a, aton) && Parse(text, a, aton) == Parsed(StoreAll(a, entries, aton), Exited)
  {
    FirstLine(EntryLine(e), rest);
    LineRoundTrip(e);
    BadAddressStored(StoreAll(a, entries, aton), e, aton);
    hide Index, Fits, LineOf, HeadOf, EntryLine, PrintAll, Store, StoreAll, EntryOk, EntryKey, EntryValue;
    EntriesAreStored(entries, EntryLine(e) + "\n" + rest, a, aton);
  }

  lemma BadAddressStored(a: Attrs, e: Entry, aton: Aton)
    requires |a.iface| == |a.filter| == FIELD && (e.ForUntrusted? || e.ForTrusted?)
    requires |e.ip| < IP_PREFIX && Index(e.ip, '/').None? && aton(e.ip).None?
    ensures Fits(EntryKey(e), EntryValue(e)) && Store(a, EntryKey(e), EntryValue(e), aton) == None
  {
    SlashIndex(e.ip, e.len);
    hide Index, Dec;
  }

  lemma SlashIndex(ip: string, len: nat)
    requires Index(ip, '/').None?
    ensures var value := ip + "/" + Dec(len);
      Index(value, '/') == Some(|ip|) && value[..|ip|] == ip && value[|ip| + 1..] == Dec(len)
  {
    var value := ip + "/" + Dec(len);
    hide Dec;
    assert value[..|ip|] == ip && value[|ip|] == '/' && value[|ip| + 1..] == Dec(len);
    IndexIs(value, '/', |ip|);
  }

  /** A NUL inside a line cuts the line there, and nothing after that line is read. */
  lemma NulEndsParse(line: string, junk: string, rest: string, a: Attrs, aton: Aton)
    requires |a.iface| == |a.filter| == FIELD
    requires Plain(line) && |line| <= MAX_LINE && LineOf(line).Setting?
    requires Index(line, ':').value + 2 <= |line| && Fits(LineOf(line).key, LineOf(line).value)
    requires Index(junk, '\n').None?
    ensures var text := line + "\0" + junk + "\n" + rest;
      && Safe(text, a, aton)
      && Parse(text, a, aton) ==
           match Store(a, LineOf(line).key, LineOf(line).value, aton)
           case None => Parsed(a, Exited)
           case Some(a') => Parsed(a', Normal)
  {
    var text, first := line + "\0" + junk + "\n" + rest, line + "\0" + junk;
    assert text[..|first|] == first && text[|first|] == '\n' && text[|first| + 1..] == rest;
    IndexIs(text, '\n', |first|);
    assert first[..|line|] == line && first[|line|] == '\0';
    IndexIs(first, '\0', |line|);
    hide Index, LineOf, Store, Fits;
  }

  // ---------- Every field is recovered ----------

  ghost predicate SameField(a: Attrs, b: Attrs, k: Key) {
    match k
    case Interface => a.iface == b.iface
    case Filter => a.filter == b.filter
    case PacketNum => a.packets == b.packets
    case UntrustedNet => a.untrusted == b.untrusted
    case TrustedNet => a.trusted == b.trusted
  }

  /** The attributes say what the entry says. */
  ghost predicate Recovers(a: Attrs, e: Entry, aton: Aton) {
    match e
    case ForInterface(name) => StringIn(a.iface) == name
    case ForFilter(name) => StringIn(a.filter) == name
    case ForPackets(n) => a.packets == if n.None? then INF_COUNT else n.value
    case ForUntrusted(ip, len) => aton(ip).Some? && a.untrusted == Network(aton(ip).value, len)
    case ForTrusted(ip, len) => aton(ip).Some? && a.trusted == Network(aton(ip).value, len)
  }

  lemma {:induction false} OtherFieldsStay(a: Attrs, entries: seq<Entry>, aton: Aton, k: Key)
    requires |a.iface| == |a.filter| == FIELD && AllOk(entries, aton)
    requires forall i :: 0 <= i < |entries| ==> EntryKey(entries[i]) != k
    ensures SameField(StoreAll(a, entries, aton), a, k)
    decreases |entries|
  {
    if entries != [] {
      assert EntryOk(entries[0], aton) && EntryKey(entries[0]) != k;
      OtherFieldsStay(StoreEntry(a, entries[0], aton), entries[1..], aton, k);
    }
  }

  lemma OverlayZeros(name: string)
    requires Plain(name) && |name| < FIELD
    ensures StringIn(Overlay(Zeros(FIELD), name)) == name
  {
    var field := Overlay(Zeros(FIELD), name);
    assert field[|name|] == '\0' && field[..|name|] == name;
    IndexIs(field, '\0', |name|);
  }

  /** A shorter second value of a text setting keeps the tail of the first, because no terminator is copied. */
  lemma SecondNameKeepsTail(first: string, second: string)
    requires Plain(first) && Plain(second) && |second| <= |first| < FIELD
    ensures StringIn(Overlay(Overlay(Zeros(FIELD), first), second)) == second + first[|second|..]
  {
    var field, mixed := Overlay(Overlay(Zeros(FIELD), first), second), second + first[|second|..];
    assert field[|first|] == '\0' && field[..|first|] == mixed;
    IndexIs(field, '\0', |first|);
  }

  lemma StoreRecovers(a: Attrs, e: Entry, aton: Aton)
    requires |a.iface| == |a.filter| == FIELD && EntryOk(e, aton) && SameField(a, ZEROED, EntryKey(e))
    ensures Recovers(StoreEntry(a, e, aton), e, aton)
  {
    if e.ForInterface? || e.ForFilter? {
      OverlayZeros(e.name);
    }
  }

  lemma RecoversField(a: Attrs, b: Attrs, e: Entry, aton: Aton)
    requires Recovers(a, e, aton) && SameField(b, a, EntryKey(e))
    ensures Recovers(b, e, aton)
  {
  }

  lemma OtherFieldStays(a: Attrs, e: Entry, aton: Aton, k: Key)
    requires |a.iface| == |a.filter| == FIELD && EntryOk(e, aton) && EntryKey(e) != k && SameField(a, ZEROED, k)
    ensures SameField(StoreEntry(a, e, aton), ZEROED, k)
  {
  }

  /** Stored into attributes whose field is still zero, entry i is recovered, whatever the order of the keys. */
  lemma {:induction false} EntryRecovered(a: Attrs, entries: seq<Entry>, aton: Aton, i: nat)
    requires |a.iface| == |a.filter| == FIELD && AllOk(entries, aton) && i < |entries|
    requires forall j :: 0 <= j < |entries| && j != i ==> EntryKey(entries[j]) != EntryKey(entries[i])
    requires SameField(a, ZEROED, EntryKey(entries[i]))
    ensures Recovers(StoreAll(a, entries, aton), entries[i], aton)
    decreases |entries|
  {
    hide EntryValue, EntryLine, Plain, Index;
    var e, k := entries[i], EntryKey(entries[i]);
    assert EntryOk(entries[0], aton) && EntryOk(e, aton);
    var a' := StoreEntry(a, entries[0], aton);
    if i == 0 {
      StoreRecovers(a, e, aton);
      OtherFieldsStay(a', entries[1..], aton, k);
      RecoversField(a', StoreAll(a', entries[1..], aton), e, aton);
    } else {
      assert EntryKey(entries[0]) != k;
      OtherFieldStays(a, entries[0], aton, k);
      hide StoreEntry, Recovers, EntryOk, EntryKey;
      EntryRecovered(a', entries[1..], aton, i - 1);
    }
  }

  /**
    Printing settings in any order, each key at most once, and parsing the text into zeroed
    attributes recovers every setting and leaves the other fields zero.
   */
  lemma {:induction false} PrintedConfigIsRecovered(entries: seq<Entry>, last: string, rest: string, aton: Aton, k: Key)
    requires AllOk(entries, aton)
    requires forall i, j :: 0 <= i < j < |entries| ==> EntryKey(entries[i]) != EntryKey(entries[j])
    requires Plain(last) && |last| <= MAX_LINE && LineOf(last).Last?
    ensures var text := PrintAll(entries) + (last + "\n" + rest);
      && Safe(text, ZEROED, aton)
      && var r := Parse(text, ZEROED, aton);
         && r.code == Normal
         && (forall i :: 0 <= i < |entries| ==> Recovers(r.attrs, entries[i], aton))
         && ((forall i :: 0 <= i < |entries| ==> EntryKey(entries[i]) != k) ==> SameField(r.attrs, ZEROED, k))
  {
    ConfigRoundTrip(entries, last, rest, ZEROED, aton);
    hide *;
    forall i | 0 <= i < |entries| ensures Recovers(StoreAll(ZEROED, entries, aton), entries[i], aton) {
      ZeroedFields(EntryKey(entries[i]));
      EntryRecovered(ZEROED, entries, aton, i);
    }
    if forall i :: 0 <= i < |entries| ==> EntryKey(entries[i]) != k {
      OtherFieldsStay(ZEROED, entries, aton, k);
    }
  }

  /** The same for a text that is closed by an empty line. */
  lemma {:induction false} ClosedConfigIsRecovered(entries: seq<Entry>, rest: string, aton: Aton, k: Key)
    requires AllOk(entries, aton)
    requires forall i, j :: 0 <= i < j < |entries| ==> EntryKey(entries[i]) != EntryKey(entries[j])
    ensures var text := PrintAll(entries) + "\n" + rest;
      && Safe(text, ZEROED, aton)
      && var r := Parse(text, ZEROED, aton);
         && r.code == Normal
         && (forall i :: 0 <= i < |entries| ==> Recovers(r.attrs, entries[i], aton))
         && ((forall i :: 0 <= i < |entries| ==> EntryKey(entries[i]) != k) ==> SameField(r.attrs, ZEROED, k))
  {
    hide *;
    EmptyLineIsLast();
    PrintedConfigIsRecovered(entries, "", rest, aton, k);
    assert PrintAll(entries) + "\n" + rest == PrintAll(entries) + ("" + "\n" + rest);
  }

  lemma EmptyLineIsLast()
    ensures LineOf("") == Last && Plain("") && 0 <= MAX_LINE
  {
  }

  lemma ZeroedFields(k: Key)
    ensures SameField(ZEROED, ZEROED, k)
  {
  }
}
