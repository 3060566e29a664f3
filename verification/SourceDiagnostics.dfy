/**
 The lifetime lines of the source-admission route: numbered without gaps, bounded, closed by an overflow line when
 there are too many, and never offered to the writer once it is told to retire.
 */
module SourceDiagnostics {
  import opened Common
  import DiagnosticWriter

  datatype Role = One | Four | Sixteen | Other
  datatype LifetimePhase = Acquired | Denied | SocketClosed | OwnerReleased | Overflow

  /** What the server says to the diagnostic writer, in order. */
  datatype LogEntry = Lifetime(sequence: nat, ordinal: nat, role: Role, phase: LifetimePhase) | SenderLine | Retire

  const MAX_ORDINARY: nat := 512
  const MAX_SENDER_RECORDS: nat := 32

  /** `ordinal` numbers the latest request, `handlers` counts the requests whose handler has not finished. */
  datatype Diagnostics = Diagnostics(
    enabled: bool, ordinal: nat, sequence: nat, senders: nat, overflow: bool, handlers: int, closing: bool,
    log: seq<LogEntry>)

  function NoDiagnostics(enabled: bool): Diagnostics {
    Diagnostics(enabled, 0, 0, 0, false, 0, false, [])
  }

  function Observe(d: Diagnostics, phase: LifetimePhase, ordinal: nat, role: Role): Diagnostics {
    if !d.enabled || d.overflow then d
    else if d.sequence >= MAX_ORDINARY || ordinal > MAX_ORDINARY then
      d.(overflow := true, sequence := d.sequence + 1, log := d.log + [Lifetime(d.sequence + 1, 0, Other, Overflow)])
    else
      d.(sequence := d.sequence + 1, log := d.log + [Lifetime(d.sequence + 1, ordinal, role, phase)])
  }

  /** A selected request starts. */
  function Admit(d: Diagnostics): Diagnostics {
    if !d.enabled then d
    else d.(handlers := d.handlers + 1,
            ordinal := if d.ordinal < MAX_ORDINARY + 1 then d.ordinal + 1 else MAX_ORDINARY + 1)
  }

  function RetireIfDone(d: Diagnostics): Diagnostics {
    if d.closing && d.handlers == 0 then d.(log := d.log + [Retire]) else d
  }

  /** A selected request's handler finishes. */
  function Leave(d: Diagnostics): Diagnostics {
    if !d.enabled then d else RetireIfDone(d.(handlers := d.handlers - 1))
  }

  /** The server has closed; that happens once. */
  function Close(d: Diagnostics): Diagnostics {
    if d.closing then d else RetireIfDone(d.(closing := true))
  }

  /** The socket of a request is looked at; its record is written if the facts found are plausible. */
  function Sender(d: Diagnostics, plausible: bool): Diagnostics {
    if !d.enabled then d
    else if d.senders >= MAX_SENDER_RECORDS || !plausible then d.(senders := d.senders + 1)
    else d.(senders := d.senders + 1, log := d.log + [SenderLine])
  }

  /** The lifetime lines of a log. */
  function Lifetimes(log: seq<LogEntry>): seq<LogEntry> {
    if log == [] then []
    else Lifetimes(log[..|log| - 1]) + (if log[|log| - 1].Lifetime? then [log[|log| - 1]] else [])
  }

  ghost predicate Retired(log: seq<LogEntry>) {
    exists i :: 0 <= i < |log| && log[i].Retire?
  }

  /** Numbered 1, 2, 3, ... without a gap, at most 513 of them, and an overflow line only as number 513. */
  ghost predicate Numbered(lines: seq<LogEntry>) {
    && |lines| <= MAX_ORDINARY + 1
    && (forall k :: 0 <= k < |lines| ==>
          && lines[k].Lifetime? && lines[k].sequence == k + 1 && lines[k].ordinal <= MAX_ORDINARY
          && (lines[k].phase.Overflow? ==> k == MAX_ORDINARY))
  }

  lemma NumberedAppend(lines: seq<LogEntry>, entry: LogEntry)
    requires Numbered(lines) && |lines| <= MAX_ORDINARY
    requires entry.Lifetime? && entry.sequence == |lines| + 1 && entry.ordinal <= MAX_ORDINARY
    requires entry.phase.Overflow? ==> |lines| == MAX_ORDINARY
    ensures Numbered(lines + [entry])
  {
  }

  ghost predicate RetireLast(log: seq<LogEntry>) {
    forall i :: 0 <= i < |log| && log[i].Retire? ==> i == |log| - 1
  }

  ghost predicate Orderly(d: Diagnostics) {
    && Numbered(Lifetimes(d.log)) && |Lifetimes(d.log)| == d.sequence
    && (d.sequence > MAX_ORDINARY ==> d.overflow)
    && RetireLast(d.log)
    && (Retired(d.log) ==> d.closing && (d.enabled ==> d.handlers == 0))
    && (!d.enabled ==> d.handlers == 0)
  }

  lemma LifetimesAppend(log: seq<LogEntry>, entry: LogEntry)
    ensures Lifetimes(log + [entry]) == Lifetimes(log) + (if entry.Lifetime? then [entry] else [])
  {
    assert (log + [entry])[..|log|] == log;
  }

  lemma RetiredAppend(log: seq<LogEntry>, entry: LogEntry)
    requires !Retired(log)
    ensures Retired(log + [entry]) <==> entry.Retire?
    ensures RetireLast(log + [entry])
  {
    assert (log + [entry])[|log|] == entry;
  }

  /** One more lifetime line. */
  lemma LineOrderly(d: Diagnostics, entry: LogEntry, overflow: bool)
    requires Orderly(d) && !Retired(d.log) && d.sequence <= MAX_ORDINARY
    requires entry.Lifetime? && entry.sequence == d.sequence + 1 && entry.ordinal <= MAX_ORDINARY
    requires entry.phase.Overflow? ==> d.sequence == MAX_ORDINARY
    requires d.overflow ==> overflow
    requires d.sequence == MAX_ORDINARY ==> overflow
    ensures var d' := d.(overflow := overflow, sequence := d.sequence + 1, log := d.log + [entry]);
            Orderly(d') && !Retired(d'.log)
  {
    LifetimesAppend(d.log, entry);
    RetiredAppend(d.log, entry);
    NumberedAppend(Lifetimes(d.log), entry);
    hide Retired, Lifetimes, RetireLast, Numbered;
  }

  lemma ObserveOrderly(d: Diagnostics, phase: LifetimePhase, ordinal: nat, role: Role)
    requires Orderly(d) && !phase.Overflow? && (d.enabled ==> !Retired(d.log))
    requires d.enabled && !d.overflow ==> ordinal <= d.sequence + 1
    ensures var d' := Observe(d, phase, ordinal, role);
            && Orderly(d') && d'.ordinal == d.ordinal
            && d'.handlers == d.handlers && d'.enabled == d.enabled && d'.closing == d.closing
            && (d.overflow ==> d'.overflow) && (d.enabled && !d.overflow ==> d'.sequence == d.sequence + 1)
            && (Retired(d'.log) <==> Retired(d.log))
  {
    if d.enabled && !d.overflow {
      assert d.sequence <= MAX_ORDINARY;
      hide Orderly, Retired;
      if d.sequence >= MAX_ORDINARY || ordinal > MAX_ORDINARY {
        LineOrderly(d, Lifetime(d.sequence + 1, 0, Other, Overflow), true);
      } else {
        LineOrderly(d, Lifetime(d.sequence + 1, ordinal, role, phase), false);
      }
    }
  }

  lemma SenderOrderly(d: Diagnostics, plausible: bool)
    requires Orderly(d) && (d.enabled ==> !Retired(d.log))
    ensures var d' := Sender(d, plausible);
            Orderly(d') && d'.handlers == d.handlers && d'.enabled == d.enabled && d'.closing == d.closing
            && (Retired(d'.log) <==> Retired(d.log))
  {
    if d.enabled {
      LifetimesAppend(d.log, SenderLine);
      RetiredAppend(d.log, SenderLine);
      assert Lifetimes(d.log + [SenderLine]) == Lifetimes(d.log);
    }
    hide Retired, Lifetimes, RetireLast, Numbered;
  }

  lemma RetireIfDoneOrderly(d: Diagnostics)
    requires Orderly(d) && !Retired(d.log)
    ensures Orderly(RetireIfDone(d)) && RetireIfDone(d).handlers == d.handlers && RetireIfDone(d).enabled == d.enabled
    ensures RetireIfDone(d).closing == d.closing
  {
    LifetimesAppend(d.log, Retire);
    RetiredAppend(d.log, Retire);
    assert Lifetimes(d.log + [Retire]) == Lifetimes(d.log);
    hide Retired, Lifetimes, RetireLast, Numbered;
  }

  // How long the lines are once written out.

  function RoleText(role: Role): string {
    match role
    case One => "one"
    case Four => "four"
    case Sixteen => "sixteen"
    case Other => "other"
  }

  function PhaseText(phase: LifetimePhase): string {
    match phase
    case Acquired => "acquired"
    case Denied => "denied"
    case SocketClosed => "socket_closed"
    case OwnerReleased => "released"
    case Overflow => "overflow"
  }

  function Quote(): string { "\"" }

  function Field(name: string, value: string): string {
    Quote() + name + Quote() + ":" + value
  }

  /** The line of a lifetime entry, as JSON with a line feed. */
  function Written(entry: LogEntry): string
    requires entry.Lifetime?
  {
    "{" + Field("schema", Quote() + "sa-lifetime.v1" + Quote()) + ","
    + Field("seq", Decimal(entry.sequence)) + ","
    + Field("request", Decimal(entry.ordinal)) + ","
    + Field("role", Quote() + RoleText(entry.role) + Quote()) + ","
    + Field("phase", Quote() + PhaseText(entry.phase) + Quote()) + "}\n"
  }

  lemma FieldIs(name: string, value: string, text: string)
    requires text == "\"" + name + "\":"
    ensures Field(name, value) == text + value
  {
    assert Quote() + name + Quote() + ":" == text;
  }

  lemma QuotedIs(value: string, text: string)
    requires text == "\"" + value + "\""
    ensures Quote() + value + Quote() == text
  {
  }

  /** The line, field by field. */
  lemma WrittenIs(entry: LogEntry)
    requires entry.Lifetime?
    ensures Written(entry) ==
            "{" + ("\"schema\":" + "\"sa-lifetime.v1\"")
            + "," + ("\"seq\":" + Decimal(entry.sequence))
            + "," + ("\"request\":" + Decimal(entry.ordinal))
            + "," + ("\"role\":" + match entry.role
                                   case One => "\"one\"" case Four => "\"four\"" case Sixteen => "\"sixteen\""
                                   case Other => "\"other\"")
            + "," + ("\"phase\":" + match entry.phase
                                    case Acquired => "\"acquired\"" case Denied => "\"denied\""
                                    case SocketClosed => "\"socket_closed\"" case OwnerReleased => "\"released\""
                                    case Overflow => "\"overflow\"")
            + "}\n"
  {
    FieldIs("seq", Decimal(entry.sequence), "\"seq\":");
    FieldIs("request", Decimal(entry.ordinal), "\"request\":");
    FieldIs("schema", Quote() + "sa-lifetime.v1" + Quote(), "\"schema\":");
    FieldIs("role", Quote() + RoleText(entry.role) + Quote(), "\"role\":");
    FieldIs("phase", Quote() + PhaseText(entry.phase) + Quote(), "\"phase\":");
    QuotedIs("sa-lifetime.v1", "\"sa-lifetime.v1\"");
    RoleQuoted(entry.role);
    PhaseQuoted(entry.phase);
    hide Field, Decimal, Quote, RoleText, PhaseText;
  }

  lemma RoleQuoted(role: Role)
    ensures Quote() + RoleText(role) + Quote() ==
            match role
            case One => "\"one\"" case Four => "\"four\"" case Sixteen => "\"sixteen\"" case Other => "\"other\""
  {
  }

  lemma PhaseQuoted(phase: LifetimePhase)
    ensures Quote() + PhaseText(phase) + Quote() ==
            match phase
            case Acquired => "\"acquired\"" case Denied => "\"denied\"" case SocketClosed => "\"socket_closed\""
            case OwnerReleased => "\"released\"" case Overflow => "\"overflow\""
  {
  }

  const LONGEST_LINE: nat := 93

  /** No line of a log is longer. */
  lemma WrittenLength(entry: LogEntry)
    requires Bounded(entry)
    ensures |Written(entry)| <= LONGEST_LINE
  {
    assert Pow10(3) == 1000;
    DecimalLength(entry.sequence, 3);
    DecimalLength(entry.ordinal, 3);
  }

  /** The bound is reached: by event 512, when it reports that the socket of request 511 has closed. */
  lemma LongestLineReached()
    ensures Bounded(Lifetime(512, 511, Sixteen, SocketClosed))
    ensures |Written(Lifetime(512, 511, Sixteen, SocketClosed))| == LONGEST_LINE
  {
    assert Decimal(512) == "512" && Decimal(511) == "511";
  }

  function Encoded(s: string): seq<byte> {
    seq(|s|, i requires 0 <= i < |s| => (s[i] as int % 256) as byte)
  }

  function AsLine(text: string): DiagnosticWriter.Line {
    DiagnosticWriter.Text(|text|, Encoded(text))
  }

  /** A log as the writer hears it. The text of a sender record is not part of this model. */
  function Spoken(log: seq<LogEntry>): seq<Option<DiagnosticWriter.Line>>
    requires forall i :: 0 <= i < |log| ==> !log[i].SenderLine?
  {
    if log == [] then []
    else
      Spoken(log[..|log| - 1])
      + [if log[|log| - 1].Lifetime? then Some(AsLine(Written(log[|log| - 1]))) else None]
  }

  predicate Bounded(entry: LogEntry) {
    entry.Lifetime? && entry.sequence <= MAX_ORDINARY + 1 && entry.ordinal <= MAX_ORDINARY
  }

  lemma {:induction false} SpokenCounts(log: seq<LogEntry>)
    requires forall i :: 0 <= i < |log| ==> !log[i].SenderLine?
    requires forall k :: 0 <= k < |Lifetimes(log)| ==>
      Bounded(Lifetimes(log)[k])
    ensures |Spoken(log)| == |log|
    ensures DiagnosticWriter.Lines(Spoken(log)) == |Lifetimes(log)|
    ensures DiagnosticWriter.TotalBytes(Spoken(log)) <= LONGEST_LINE * |Lifetimes(log)|
    ensures forall i :: 0 <= i < |log| ==>
      if log[i].Retire? then Spoken(log)[i].None?
      else Spoken(log)[i].Some? && DiagnosticWriter.FitsLine(Spoken(log)[i].value)
  {
    if log != [] {
      var before, entry := log[..|log| - 1], log[|log| - 1];
      LifetimesAppend(before, entry);
      assert log == before + [entry];
      forall k | 0 <= k < |Lifetimes(before)|
        ensures Lifetimes(before)[k] == Lifetimes(log)[k]
      {
      }
      SpokenCounts(before);
      if entry.Lifetime? {
        assert Lifetimes(log)[|Lifetimes(before)|] == entry;
        WrittenLength(entry);
      }
      assert Spoken(log)[..|log| - 1] == Spoken(before);
      hide Written, Lifetimes;
    }
  }

  /** Without sender records the log stays within every limit of the writer. */
  lemma OrderlyFitsWriter(d: Diagnostics)
    requires Orderly(d) && forall i :: 0 <= i < |d.log| ==> !d.log[i].SenderLine?
    ensures DiagnosticWriter.WithinLimits(Spoken(d.log))
  {
    hide Retired, Written, Lifetimes, Spoken, DiagnosticWriter.Lines, DiagnosticWriter.TotalBytes;
    SpokenCounts(d.log);
    assert LONGEST_LINE * |Lifetimes(d.log)| <= DiagnosticWriter.MAX_TOTAL;
  }
}
