/**
 The parser of `/proc/[pid]/stat`, against the printer `pid (comm) fields...`.
 */
module ProcStat {
  import opened Text
  import opened Values

  const U32 := 0x1_0000_0000
  const U64 := 0x1_0000_0000_0000_0000
  const MIN_FIELDS := 37

  datatype ProcStat = ProcStat(
    pid: nat, comm: string, state: char, ppid: nat, utime: nat, stime: nat, numThreads: nat,
    starttime: nat, vsize: nat, rss: int, majflt: nat, processor: int)

  // ----- Rust's text functions -----

  // `s.find(c)`, from position i on
  function Find(s: string, c: char, i: nat): (r: Option<nat>)
    requires i <= |s|
    decreases |s| - i
  {
    if i == |s| then None else if s[i] == c then Some(i) else Find(s, c, i + 1)
  }

  // `s.rfind(c)`
  function RFind(s: string, c: char): (r: Option<nat>) {
    if s == "" then None else if s[|s| - 1] == c then Some(|s| - 1) else RFind(s[..|s| - 1], c)
  }

  function TrimStart(s: string): string {
    if s != "" && IsRustSpace(s[0]) then TrimStart(s[1..]) else s
  }

  function TrimEnd(s: string): string {
    if s != "" && IsRustSpace(s[|s| - 1]) then TrimEnd(s[..|s| - 1]) else s
  }

  // `s.parse()` for an unsigned type with values below `limit`
  function ParseUnsigned(s: string, limit: nat): Option<nat> {
    var digits := if s != "" && s[0] == '+' then s[1..] else s;
    if digits != "" && AllDigits(digits) && Parse(digits) < limit then Some(Parse(digits)) else None
  }

  // `s.parse()` for a signed type with values from `-half` up to, and without, `half`
  function ParseSigned(s: string, half: nat): Option<int> {
    if s != "" && s[0] == '-' then
      var digits := s[1..];
      if digits != "" && AllDigits(digits) && Parse(digits) <= half then Some(0 - Parse(digits)) else None
    else
      match ParseUnsigned(s, half)
      case None => None
      case Some(n) => Some(n)
  }

  // Length of the token at the start of `s`.
  function TokenLength(s: string): (n: nat)
    ensures n <= |s|
    ensures s != "" && !IsRustSpace(s[0]) ==> n > 0
  {
    if s == "" || IsRustSpace(s[0]) then 0 else 1 + TokenLength(s[1..])
  }

  lemma TrimStartShortens(s: string)
    ensures |TrimStart(s)| <= |s|
    ensures TrimStart(s) != "" ==> !IsRustSpace(TrimStart(s)[0])
  {
  }

  // `s.split_whitespace().collect()`
  function Tokens(s: string): seq<string>
    decreases |s|
  {
    TrimStartShortens(s);
    var t := TrimStart(s);
    if t == "" then [] else [t[..TokenLength(t)]] + Tokens(t[TokenLength(t)..])
  }

  // ----- parse_proc_stat -----

  // Cuts the text at the first `(` and the last `)`.  The text is UTF-8: skipping
  // the byte after `)` fails when that byte is not a whole character.
  function SplitStat(content: string): Option<(nat, string, seq<string>)> {
    var open, close := Find(content, '(', 0), RFind(content, ')');
    if open.None? || close.None? then None
    else
      var start, end := open.value, close.value;
      if end <= start || end >= |content| then None
      else
        CutStat(TrimEnd(TrimStart(content[..start])), content[start + 1..end], content[end + 1..])
  }

  function CutStat(pidText: string, comm: string, after: string): Option<(nat, string, seq<string>)> {
    var pid := ParseUnsigned(pidText, U32);
    if pid.None? || after == "" || after[0] > '\U{7F}' then None
    else Some((pid.value, comm, Tokens(after[1..])))
  }

  function ParseProcStat(content: string): Option<ProcStat> {
    match SplitStat(content)
    case None => None
    case Some((pid, comm, fields)) => FromFields(pid, comm, fields)
  }

  // Field N of the list is stat field N + 3.
  function FromFields(pid: nat, comm: string, fields: seq<string>): Option<ProcStat> {
    if |fields| < MIN_FIELDS then None
    else Some(ProcStat(
      pid, comm,
      if fields[0] == "" then '?' else fields[0][0],
      GetOr(ParseUnsigned(fields[1], U32), 0),
      GetOr(ParseUnsigned(fields[11], U64), 0),
      GetOr(ParseUnsigned(fields[12], U64), 0),
      GetOr(ParseUnsigned(fields[17], U32), 0),
      GetOr(ParseUnsigned(fields[19], U64), 0),
      GetOr(ParseUnsigned(fields[20], U64), 0),
      GetOr(ParseSigned(fields[21], U64 / 2), 0),
      GetOr(ParseUnsigned(fields[9], U64), 0),
      GetOr(ParseSigned(fields[36], U32 / 2), -1)))
  }

  // ----- The printer -----

  predicate IsToken(s: string) {
    s != "" && forall k :: 0 <= k < |s| ==> !IsRustSpace(s[k])
  }

  predicate AllTokens(fields: seq<string>) {
    forall k :: 0 <= k < |fields| ==> IsToken(fields[k])
  }

  predicate IsBlank(s: string) {
    forall k :: 0 <= k < |s| ==> IsRustSpace(s[k])
  }

  // The fields, each preceded by a blank.
  function PrintFields(fields: seq<string>): string {
    if fields == [] then "" else " " + fields[0] + PrintFields(fields[1..])
  }

  // `tail` is what follows the last field, the kernel's newline.
  function PrintStat(pid: nat, comm: string, fields: seq<string>, tail: string): string {
    Print(pid) + " (" + comm + ")" + PrintFields(fields) + tail
  }

  // ----- Tokens of printed fields -----

  lemma {:induction false} TokenLengthIs(token: string, rest: string)
    requires IsToken(token) && (rest == "" || IsRustSpace(rest[0]))
    ensures TokenLength(token + rest) == |token|
  {
    assert (token + rest)[1..] == token[1..] + rest;
    if |token| > 1 {
      TokenLengthIs(token[1..], rest);
    } else {
      assert token[1..] + rest == rest;
    }
  }

  lemma TrimOneBlank(s: string)
    requires s != "" && !IsRustSpace(s[0])
    ensures TrimStart(" " + s) == s
  {
    assert (" " + s)[1..] == s;
  }

  lemma TokensCons(token: string, rest: string)
    requires IsToken(token) && (rest == "" || IsRustSpace(rest[0]))
    ensures Tokens(" " + token + rest) == [token] + Tokens(rest)
  {
    var s := token + rest;
    TokenLengthIs(token, rest);
    TrimOneBlank(s);
    Parts(token, rest, s);
    TokensUnfold(" " + s, s);
    assert " " + token + rest == " " + s;
  }

  lemma TokensUnfold(s: string, t: string)
    requires t != "" && TrimStart(s) == t
    ensures Tokens(s) == [t[..TokenLength(t)]] + Tokens(t[TokenLength(t)..])
  {
    TrimStartShortens(s);
  }

  lemma {:induction false} TokensOfBlank(s: string)
    requires IsBlank(s)
    ensures TrimStart(s) == "" && Tokens(s) == []
  {
    if s != "" { TokensOfBlank(s[1..]); }
  }

  lemma {:induction false} TokensOfFields(fields: seq<string>, tail: string)
    requires AllTokens(fields) && IsBlank(tail)
    ensures Tokens(PrintFields(fields) + tail) == fields
  {
    if fields == [] {
      assert "" + tail == tail;
      TokensOfBlank(tail);
    } else {
      var rest := PrintFields(fields[1..]) + tail;
      TokensOfFields(fields[1..], tail);
      StartsBlank(fields[1..], tail, rest);
      FirstField(fields, tail, rest);
      TokensCons(fields[0], rest);
    }
  }

  lemma FirstField(fields: seq<string>, tail: string, rest: string)
    requires fields != [] && rest == PrintFields(fields[1..]) + tail
    ensures PrintFields(fields) + tail == " " + fields[0] + rest
  {
  }

  lemma StartsBlank(fields: seq<string>, tail: string, rest: string)
    requires IsBlank(tail) && rest == PrintFields(fields) + tail
    ensures rest != "" ==> IsRustSpace(rest[0])
    ensures fields != [] ==> rest != "" && rest[0] == ' '
  {
  }

  lemma TokensSkipOneBlank(s: string)
    requires s != "" && IsRustSpace(s[0])
    ensures Tokens(s[1..]) == Tokens(s)
  {
  }

  // ----- Finding the parentheses -----

  lemma {:induction false} FindIs(s: string, c: char, i: nat, p: nat)
    requires i <= p < |s| && s[p] == c && forall k :: i <= k < p ==> s[k] != c
    ensures Find(s, c, i) == Some(p)
    decreases p - i
  {
    if i < p { FindIs(s, c, i + 1, p); }
  }

  lemma {:induction false} RFindIs(s: string, c: char, p: nat)
    requires p < |s| && s[p] == c && forall k :: p < k < |s| ==> s[k] != c
    ensures RFind(s, c) == Some(p)
  {
    if p < |s| - 1 { RFindIs(s[..|s| - 1], c, p); }
  }

  lemma {:induction false} RFindIsLast(s: string, c: char, p: nat)
    requires p < |s| && s[p] == c
    ensures RFind(s, c).Some? && p <= RFind(s, c).value < |s|
  {
    if s[|s| - 1] != c { RFindIsLast(s[..|s| - 1], c, p); }
  }

  // No field closes a parenthesis.
  predicate NoneCloses(fields: seq<string>) {
    forall k :: 0 <= k < |fields| ==> Lacks(fields[k], ')')
  }

  predicate Has(s: string, c: char) { exists k :: 0 <= k < |s| && s[k] == c }

  lemma HasConcat(s: string, t: string, c: char)
    ensures Has(s + t, c) <==> Has(s, c) || Has(t, c)
  {
    if Has(s, c) {
      var k :| 0 <= k < |s| && s[k] == c;
      assert (s + t)[k] == c;
    }
    if Has(t, c) {
      var k :| 0 <= k < |t| && t[k] == c;
      assert (s + t)[|s| + k] == c;
    }
  }

  lemma {:induction false} FieldsClose(fields: seq<string>)
    ensures NoneCloses(fields) <==> !Has(PrintFields(fields), ')')
  {
    if fields != [] {
      FieldsClose(fields[1..]);
      HasConcat(" ", fields[0], ')');
      HasConcat(" " + fields[0], PrintFields(fields[1..]), ')');
      assert NoneCloses(fields) <==> Lacks(fields[0], ')') && NoneCloses(fields[1..]);
    }
  }

  // ----- The round trip -----

  lemma DigitsParse(digits: string, limit: nat)
    requires digits != "" && AllDigits(digits)
    ensures ParseUnsigned(digits, limit) == if Parse(digits) < limit then Some(Parse(digits)) else None
    ensures ParseSigned(digits, limit) == if Parse(digits) < limit then Some(Parse(digits)) else None
    ensures ParseSigned("-" + digits, limit) == if Parse(digits) <= limit then Some(0 - Parse(digits)) else None
  {
    assert IsDigit(digits[0]);
    assert ("-" + digits)[1..] == digits;
  }

  lemma DigitsTrim(digits: string, s: string)
    requires digits != "" && AllDigits(digits) && s == digits + " "
    ensures TrimEnd(TrimStart(s)) == digits
  {
    assert s[0] == digits[0] && IsDigit(s[0]) && IsDigit(digits[|digits| - 1]);
    assert TrimStart(s) == s && s[..|s| - 1] == digits;
    assert TrimEnd(digits) == digits;
  }

  lemma PidParses(pid: nat)
    requires pid < U32
    ensures ParseUnsigned(TrimEnd(TrimStart(Print(pid) + " ")), U32) == Some(pid)
  {
    ParsePrint(pid);
    DigitsTrim(Print(pid), Print(pid) + " ");
    DigitsParse(Print(pid), U32);
  }

  // Where the parts of a printed line are.
  lemma StatLayout(head: string, comm: string, rest: string, content: string, start: nat, end: nat)
    requires content == head + "(" + comm + ")" + rest
    requires start == |head| && end == start + 1 + |comm|
    ensures end < |content| && content[start] == '(' && content[end] == ')'
    ensures content[..start] == head && content[start + 1..end] == comm && content[end + 1..] == rest
  {
    var left, right := head + "(" + comm, ")" + rest;
    assert content == left + right;
    Parts(left, right, content);
    assert content[end] == right[0] && content[end + 1..] == right[1..] == rest;
    assert content[..end] == left;
  }

  lemma FirstParenthesis(content: string, head: string)
    requires |head| < |content| && content[..|head|] == head && content[|head|] == '(' && Lacks(head, '(')
    ensures Find(content, '(', 0) == Some(|head|)
  {
    assert forall k :: 0 <= k < |head| ==> content[k] == head[k];
    FindIs(content, '(', 0, |head|);
  }

  lemma HeadLacksOpen(pid: nat)
    ensures Lacks(Print(pid) + " ", '(')
  {
  }

  lemma SplitAtParentheses(head: string, comm: string, rest: string, content: string)
    requires content == head + "(" + comm + ")" + rest
    requires Lacks(head, '(') && Lacks(rest, ')')
    ensures SplitStat(content) == CutStat(TrimEnd(TrimStart(head)), comm, rest)
  {
    var end := |head| + 1 + |comm|;
    StatLayout(head, comm, rest, content, |head|, end);
    FirstParenthesis(content, head);
    LastParenthesis(content, end, rest);
  }

  lemma ParseClosed(pid: nat, comm: string, fields: seq<string>, tail: string, content: string)
    requires pid < U32 && fields != [] && AllTokens(fields) && IsBlank(tail) && NoneCloses(fields)
    requires content == PrintStat(pid, comm, fields, tail)
    ensures SplitStat(content) == Some((pid, comm, fields))
  {
    var head, rest := Print(pid) + " ", PrintFields(fields) + tail;
    PrintedShape(pid, comm, fields, tail);
    HeadLacksOpen(pid);
    RestLacksClose(fields, tail);
    SplitAtParentheses(head, comm, rest, content);
    CutClosed(pid, comm, fields, tail, rest);
  }

  lemma CutClosed(pid: nat, comm: string, fields: seq<string>, tail: string, rest: string)
    requires pid < U32 && fields != [] && AllTokens(fields) && IsBlank(tail)
    requires rest == PrintFields(fields) + tail
    ensures CutStat(TrimEnd(TrimStart(Print(pid) + " ")), comm, rest) == Some((pid, comm, fields))
  {
    PidParses(pid);
    TokensAfter(rest, fields, tail);
  }

  lemma PrintedShape(pid: nat, comm: string, fields: seq<string>, tail: string)
    ensures PrintStat(pid, comm, fields, tail) ==
            (Print(pid) + " ") + "(" + comm + ")" + (PrintFields(fields) + tail)
  {
    FourParts(Print(pid), comm, PrintFields(fields), tail);
  }

  lemma FourParts(a: string, b: string, c: string, d: string)
    ensures a + " (" + b + ")" + c + d == (a + " ") + "(" + b + ")" + (c + d)
  {
    assert a + " (" == (a + " ") + "(";
  }

  lemma LastParenthesis(content: string, end: nat, rest: string)
    requires end < |content| && content[end] == ')' && content[end + 1..] == rest && Lacks(rest, ')')
    ensures RFind(content, ')') == Some(end)
  {
    assert forall k :: end < k < |content| ==> content[k] == rest[k - (end + 1)];
    RFindIs(content, ')', end);
  }

  lemma TokensAfter(rest: string, fields: seq<string>, tail: string)
    requires rest == PrintFields(fields) + tail
    requires fields != [] && AllTokens(fields) && IsBlank(tail)
    ensures rest != "" && rest[0] == ' ' && Tokens(rest[1..]) == fields
  {
    StartsBlank(fields, tail, rest);
    TokensSkipOneBlank(rest);
    TokensOfFields(fields, tail);
  }

  lemma RestLacksClose(fields: seq<string>, tail: string)
    requires NoneCloses(fields) && IsBlank(tail)
    ensures Lacks(PrintFields(fields) + tail, ')')
  {
    FieldsClose(fields);
    HasConcat(PrintFields(fields), tail, ')');
  }

  lemma RestCloses(fields: seq<string>, tail: string)
    requires !NoneCloses(fields)
    ensures Has(PrintFields(fields) + tail, ')')
  {
    FieldsClose(fields);
    HasConcat(PrintFields(fields), tail, ')');
  }

  // A later closing parenthesis makes the parsed name longer.
  lemma LaterClose(content: string, start: nat, end: nat, p: nat)
    requires Find(content, '(', 0) == Some(start) && start < end < p < |content| && content[p] == ')'
    ensures SplitStat(content).Some? ==> |SplitStat(content).value.1| > end - start - 1
  {
    RFindIsLast(content, ')', p);
  }

  lemma ParseUnclosed(pid: nat, comm: string, fields: seq<string>, tail: string, content: string)
    requires !NoneCloses(fields)
    requires content == PrintStat(pid, comm, fields, tail)
    ensures SplitStat(content).Some? ==> |SplitStat(content).value.1| > |comm|
  {
    var head, rest := Print(pid) + " ", PrintFields(fields) + tail;
    PrintedShape(pid, comm, fields, tail);
    HeadLacksOpen(pid);
    RestCloses(fields, tail);
    CloseAfter(head, comm, rest, content);
  }

  lemma CloseAfter(head: string, comm: string, rest: string, content: string)
    requires content == head + "(" + comm + ")" + rest
    requires Lacks(head, '(') && Has(rest, ')')
    ensures SplitStat(content).Some? ==> |SplitStat(content).value.1| > |comm|
  {
    var end := |head| + 1 + |comm|;
    StatLayout(head, comm, rest, content, |head|, end);
    FirstParenthesis(content, head);
    var p :| 0 <= p < |rest| && rest[p] == ')';
    assert content[end + 1..][p] == ')';
    LaterClose(content, |head|, end, end + 1 + p);
  }

  /**
   Parsing a printed stat line gives back its pid, comm and fields, whatever
   blanks and parentheses the comm has, exactly when no field contains a closing
   parenthesis.  With fewer fields than needed nothing is returned.
   */
  lemma ParseUndoesPrint(pid: nat, comm: string, fields: seq<string>, tail: string)
    requires pid < U32 && fields != [] && AllTokens(fields) && IsBlank(tail)
    ensures NoneCloses(fields) ==> ParseProcStat(PrintStat(pid, comm, fields, tail)) == FromFields(pid, comm, fields)
    ensures NoneCloses(fields) ==> (ParseProcStat(PrintStat(pid, comm, fields, tail)).Some? <==> |fields| >= 37)
    ensures !NoneCloses(fields) && |fields| >= MIN_FIELDS ==>
              ParseProcStat(PrintStat(pid, comm, fields, tail)) != FromFields(pid, comm, fields)
  {
    if NoneCloses(fields) {
      ParseClosed(pid, comm, fields, tail, PrintStat(pid, comm, fields, tail));
    } else {
      ParseUnclosed(pid, comm, fields, tail, PrintStat(pid, comm, fields, tail));
    }
  }

  /** A decimal numeral in a field is read back exactly when the type can hold it. */
  lemma NumbersParse(n: nat, limit: nat)
    ensures ParseUnsigned(Print(n), limit) == if n < limit then Some(n) else None
    ensures ParseSigned(Print(n), limit) == if n < limit then Some(n) else None
    ensures ParseSigned("-" + Print(n), limit) == if n <= limit then Some(0 - n) else None
  {
    ParsePrint(n);
    DigitsParse(Print(n), limit);
  }

  /** A plus sign is read too. */
  lemma PlusParses(n: nat, limit: nat)
    ensures ParseUnsigned("+" + Print(n), limit) == if n < limit then Some(n) else None
  {
    ParsePrint(n);
    PlusDigits(Print(n), limit);
  }

  lemma PlusDigits(digits: string, limit: nat)
    requires digits != "" && AllDigits(digits)
    ensures ParseUnsigned("+" + digits, limit) == if Parse(digits) < limit then Some(Parse(digits)) else None
  {
    assert ("+" + digits)[1..] == digits;
  }

  /** A field that is no number counts as zero, the processor as -1. */
  lemma GarbageFields(pid: nat, comm: string, fields: seq<string>, garbage: string)
    requires garbage != "" && !IsDigit(garbage[0]) && garbage[0] !in {'+', '-'}
    requires |fields| >= 37 && forall k :: 0 < k < |fields| ==> fields[k] == garbage
    ensures FromFields(pid, comm, fields) ==
            Some(ProcStat(pid, comm, if fields[0] == "" then '?' else fields[0][0], 0, 0, 0, 0, 0, 0, 0, 0, -1))
  {
    GarbageParses(garbage, U32);
    GarbageParses(garbage, U64);
    GarbageParses(garbage, U64 / 2);
    GarbageParses(garbage, U32 / 2);
  }

  lemma GarbageParses(garbage: string, limit: nat)
    requires garbage != "" && !IsDigit(garbage[0]) && garbage[0] !in {'+', '-'}
    ensures ParseUnsigned(garbage, limit) == None && ParseSigned(garbage, limit) == None
  {
  }

  // ----- Records -----

  // What the kernel can print: every number fits its type, and the state is a letter.
  predicate IsStored(stat: ProcStat) {
    && stat.pid < U32 && stat.ppid < U32 && stat.numThreads < U32
    && stat.utime < U64 && stat.stime < U64 && stat.starttime < U64 && stat.vsize < U64 && stat.majflt < U64
    && -(U64 / 2) <= stat.rss < U64 / 2 && -(U32 / 2) <= stat.processor < U32 / 2
    && IsToken([stat.state]) && stat.state != ')'
  }

  function PrintSigned(n: int): string {
    if n < 0 then "-" + Print(-n) else Print(n)
  }

  // The fields of a record at their positions; the kernel's other fields come from `others`.
  function RecordFields(stat: ProcStat, others: seq<string>): (r: seq<string>)
    requires |others| >= MIN_FIELDS
    ensures |r| == |others|
  {
    others[0 := [stat.state]][1 := Print(stat.ppid)][9 := Print(stat.majflt)]
    [11 := Print(stat.utime)][12 := Print(stat.stime)][17 := Print(stat.numThreads)]
    [19 := Print(stat.starttime)][20 := Print(stat.vsize)][21 := PrintSigned(stat.rss)]
    [36 := PrintSigned(stat.processor)]
  }

  lemma NumeralIsToken(n: nat)
    ensures IsToken(Print(n)) && Lacks(Print(n), ')')
  {
  }

  lemma SignedIsToken(n: int)
    ensures IsToken(PrintSigned(n)) && Lacks(PrintSigned(n), ')')
  {
    if n < 0 { NumeralIsToken(-n); } else { NumeralIsToken(n); }
  }

  lemma SignedParses(n: int, limit: int)
    requires limit >= 0 && -limit <= n < limit
    ensures ParseSigned(PrintSigned(n), limit) == Some(n)
  {
    if n < 0 { NumbersParse(-n, limit); } else { NumbersParse(n, limit); }
  }

  lemma PutField(fields: seq<string>, k: nat, field: string) returns (r: seq<string>)
    requires AllTokens(fields) && NoneCloses(fields) && k < |fields| && IsToken(field) && Lacks(field, ')')
    ensures r == fields[k := field] && AllTokens(r) && NoneCloses(r)
  {
    r := fields[k := field];
  }

  lemma PutNumber(fields: seq<string>, k: nat, n: nat) returns (r: seq<string>)
    requires AllTokens(fields) && NoneCloses(fields) && k < |fields|
    ensures r == fields[k := Print(n)] && AllTokens(r) && NoneCloses(r)
  {
    NumeralIsToken(n);
    r := PutField(fields, k, Print(n));
  }

  lemma RecordFieldsAreTokens(stat: ProcStat, others: seq<string>)
    requires IsStored(stat) && |others| >= MIN_FIELDS && AllTokens(others) && NoneCloses(others)
    ensures AllTokens(RecordFields(stat, others)) && NoneCloses(RecordFields(stat, others))
  {
    var r := PutField(others, 0, [stat.state]);
    r := PutNumber(r, 1, stat.ppid);
    r := PutNumber(r, 9, stat.majflt);
    r := PutNumber(r, 11, stat.utime);
    r := PutNumber(r, 12, stat.stime);
    r := PutNumber(r, 17, stat.numThreads);
    r := PutNumber(r, 19, stat.starttime);
    r := PutNumber(r, 20, stat.vsize);
    SignedIsToken(stat.rss);
    r := PutField(r, 21, PrintSigned(stat.rss));
    SignedIsToken(stat.processor);
    r := PutField(r, 36, PrintSigned(stat.processor));
  }

  // Fields that hold the numbers of a record in any notation that is read back make that record.
  lemma FieldsMakeRecord(stat: ProcStat, fields: seq<string>, show: nat -> string, showSigned: int -> string)
    requires forall n: nat, limit: nat :: n < limit ==> ParseUnsigned(show(n), limit) == Some(n)
    requires forall n: int, limit: int :: limit >= 0 && -limit <= n < limit ==>
        ParseSigned(showSigned(n), limit) == Some(n)
    requires IsStored(stat) && |fields| >= MIN_FIELDS && fields[0] == [stat.state]
    requires fields[1] == show(stat.ppid) && fields[9] == show(stat.majflt)
    requires fields[11] == show(stat.utime) && fields[12] == show(stat.stime) && fields[17] == show(stat.numThreads)
    requires fields[19] == show(stat.starttime) && fields[20] == show(stat.vsize)
    requires fields[21] == showSigned(stat.rss) && fields[36] == showSigned(stat.processor)
    ensures FromFields(stat.pid, stat.comm, fields) == Some(stat)
  {
  }

  lemma NumeralsAreRead()
    ensures forall n: nat, limit: nat :: n < limit ==> ParseUnsigned(Print(n), limit) == Some(n)
    ensures forall n: int, limit: int :: limit >= 0 && -limit <= n < limit ==>
        ParseSigned(PrintSigned(n), limit) == Some(n)
  {
    forall n: nat, limit: nat | n < limit ensures ParseUnsigned(Print(n), limit) == Some(n) {
      NumbersParse(n, limit);
    }
    forall n: int, limit: int | limit >= 0 && -limit <= n < limit
        ensures ParseSigned(PrintSigned(n), limit) == Some(n) {
      SignedParses(n, limit);
    }
  }

  lemma RecordParses(stat: ProcStat, others: seq<string>)
    requires IsStored(stat) && |others| >= MIN_FIELDS
    ensures FromFields(stat.pid, stat.comm, RecordFields(stat, others)) == Some(stat)
  {
    NumeralsAreRead();
    FieldsMakeRecord(stat, RecordFields(stat, others), Print, PrintSigned);
  }

  /** Printing a record, its numbers at their stat positions, and parsing it gives back the record. */
  lemma ParseUndoesPrintOfRecord(stat: ProcStat, others: seq<string>, tail: string)
    requires IsStored(stat) && |others| >= MIN_FIELDS && AllTokens(others) && NoneCloses(others) && IsBlank(tail)
    ensures ParseProcStat(PrintStat(stat.pid, stat.comm, RecordFields(stat, others), tail)) == Some(stat)
  {
    RecordFieldsAreTokens(stat, others);
    ParseUndoesPrint(stat.pid, stat.comm, RecordFields(stat, others), tail);
    RecordParses(stat, others);
  }
}
