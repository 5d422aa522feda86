/** Bounded rendering of configuration and log sinks (functions/config/procfs.rs, functions/klog.rs). */
module Render {
  import opened Machine
  import opened Decimal

  const MAX_LOG_SINKS: nat := 4

  /** `buf` holds the start of `full` up to `pos`, all of it unless the buffer is full, and is untouched beyond. */
  ghost predicate Holds(buf: seq<char>, was: seq<char>, full: string, pos: nat) {
    && |buf| == |was| && pos == Min(|full|, |buf|)
    && buf == full[..pos] + was[pos..]
  }

  lemma HoldsMore(buf: seq<char>, was: seq<char>, full: string, pos: nat, src: string, buf': seq<char>, pos': nat)
    requires Holds(buf, was, full, pos)
    requires pos' == Min(pos + |src|, |buf|) && |buf'| == |buf|
    requires buf' == buf[..pos] + src[..pos' - pos] + buf[pos'..]
    ensures Holds(buf', was, full + src, pos')
  {
    if |full| < |buf| {
      assert full[..pos] == full;
      assert (full + src)[..pos'] == full + src[..pos' - pos];
    } else {
      assert src[..0] == [];
      assert (full + src)[..pos'] == full[..pos];
    }
  }

  lemma HoldsNothing(buf: seq<char>)
    ensures Holds(buf, buf, "", 0)
  {
  }

  function YesNo(b: bool): string {
    if b then "yes" else "no"
  }

  function FieldNum(t: string, k: string, v: U64): string {
    t + "\"" + k + "\":" + Digits(v)
  }

  function FieldBool(t: string, k: string, v: bool): string {
    t + "\"" + k + "\":" + if v then "true" else "false"
  }

  function FieldStr(t: string, k: string, v: string): string {
    t + "\"" + k + "\":\"" + v + "\""
  }

  /** The push closures with the buffer and position they share; `full` is what an unbounded buffer would hold. */
  class Writer {
    const buf: array<char>
    var pos: nat
    ghost const was: seq<char>
    ghost var full: string

    ghost predicate Valid()
      reads this, buf
    {
      Holds(buf[..], was, full, pos)
    }

    constructor (buf: array<char>)
      ensures this.buf == buf && was == buf[..] && full == "" && Valid()
    {
      this.buf := buf;
      pos := 0;
      was := buf[..];
      full := "";
      new;
      HoldsNothing(buf[..]);
    }

    method PushStr(src: string)
      requires Valid()
      modifies this, buf
      ensures Valid() && full == old(full) + src
    {
      ghost var before := buf[..];
      var end := Min(pos + |src|, buf.Length);
      var len := end - pos;
      forall k | 0 <= k < len {
        buf[pos + k] := src[k];
      }
      assert buf[..] == before[..pos] + src[..len] + before[end..];
      HoldsMore(before, was, full, pos, src, buf[..], end);
      pos := pos + len;
      full := full + src;
    }

    /** Decimal digits, cut off like any other text; a lone zero is written directly. */
    method PushU64(val: U64)
      requires Valid()
      modifies this, buf
      ensures Valid() && full == old(full) + Digits(val)
    {
      if val == 0 {
        PushStr("0");
        return;
      }
      var tmp, i := FillDigits(val);
      PushStr(tmp[i..]);
    }

    method PushBool(val: bool)
      requires Valid()
      modifies this, buf
      ensures Valid() && full == old(full) + YesNo(val)
    {
      PushStr(if val then "yes" else "no");
    }

    method PushFieldNum(k: string, v: U64)
      requires Valid()
      modifies this, buf
      ensures Valid() && full == FieldNum(old(full), k, v)
    {
      hide Holds, Digits;
      PushStr("\"");
      PushStr(k);
      PushStr("\":");
      PushU64(v);
    }

    method PushFieldBool(k: string, v: bool)
      requires Valid()
      modifies this, buf
      ensures Valid() && full == FieldBool(old(full), k, v)
    {
      hide Holds;
      PushStr("\"");
      PushStr(k);
      PushStr("\":");
      PushStr(if v then "true" else "false");
    }

    method PushFieldStr(k: string, v: string)
      requires Valid()
      modifies this, buf
      ensures Valid() && full == FieldStr(old(full), k, v)
    {
      hide Holds;
      PushStr("\"");
      PushStr(k);
      PushStr("\":\"");
      PushStr(v);
      PushStr("\"");
    }
  }

  // ---- configuration ---------------------------------------------------------------------

  datatype Capabilities = Capabilities(smp: bool, preempt: bool, kaslr: bool, kpti: bool, freg: bool)

  datatype ConfigSummary = ConfigSummary(
    maxCpus: U64,
    actualCpus: U64,
    maxIrqs: U64,
    maxProcesses: U64,
    maxThreads: U64,
    pageSize: U64,
    kaslrOffset: U64,
    apicEnabled: bool,
    ioapicEnabled: bool,
    caps: Capabilities)

  /** The complete text report. */
  function ConfigText(s: ConfigSummary): string {
    var t := "";
    var t := t + "Edgine Configuration\n";
    var t := t + "==========================\n";
    var t := t + "max_cpus:        ";
    var t := t + Digits(s.maxCpus);
    var t := t + "\nactual_cpus:     ";
    var t := t + Digits(s.actualCpus);
    var t := t + "\nmax_irqs:        ";
    var t := t + Digits(s.maxIrqs);
    var t := t + "\nmax_processes:   ";
    var t := t + Digits(s.maxProcesses);
    var t := t + "\nmax_threads:     ";
    var t := t + Digits(s.maxThreads);
    var t := t + "\npage_size:       ";
    var t := t + Digits(s.pageSize);
    var t := t + "\nkaslr_offset:    0x";
    var t := t + Digits(s.kaslrOffset);
    var t := t + "\napic_enabled:    ";
    var t := t + YesNo(s.apicEnabled);
    var t := t + "\nioapic_enabled:  ";
    var t := t + YesNo(s.ioapicEnabled);
    var t := t + "\n-- capabilities --\n";
    var t := t + "smp:             ";
    var t := t + YesNo(s.caps.smp);
    var t := t + "\npreempt:         ";
    var t := t + YesNo(s.caps.preempt);
    var t := t + "\nkaslr:           ";
    var t := t + YesNo(s.caps.kaslr);
    var t := t + "\nkpti:            ";
    var t := t + YesNo(s.caps.kpti);
    var t := t + "\nfreg:         ";
    var t := t + YesNo(s.caps.freg);
    t + "\n"
  }

  /** The complete JSON report. */
  function ConfigJson(s: ConfigSummary): string {
    var t := "";
    var t := t + "{";
    var t := FieldStr(t, "format_version", "1");
    var t := t + ",";
    var t := FieldStr(t, "kernel", "Edgine");
    var t := t + ",";
    var t := FieldNum(t, "max_cpus", s.maxCpus);
    var t := t + ",";
    var t := FieldNum(t, "actual_cpus", s.actualCpus);
    var t := t + ",";
    var t := FieldNum(t, "max_irqs", s.maxIrqs);
    var t := t + ",";
    var t := FieldNum(t, "max_processes", s.maxProcesses);
    var t := t + ",";
    var t := FieldNum(t, "max_threads", s.maxThreads);
    var t := t + ",";
    var t := FieldNum(t, "page_size", s.pageSize);
    var t := t + ",";
    var t := FieldNum(t, "kaslr_offset", s.kaslrOffset);
    var t := t + ",";
    var t := FieldBool(t, "apic_enabled", s.apicEnabled);
    var t := t + ",";
    var t := FieldBool(t, "ioapic_enabled", s.ioapicEnabled);
    var t := t + ",";
    var t := t + "\"capabilities\":{";
    var t := FieldBool(t, "smp", s.caps.smp);
    var t := t + ",";
    var t := FieldBool(t, "preempt", s.caps.preempt);
    var t := t + ",";
    var t := FieldBool(t, "kaslr", s.caps.kaslr);
    var t := t + ",";
    var t := FieldBool(t, "kpti", s.caps.kpti);
    var t := t + ",";
    var t := FieldBool(t, "freg", s.caps.freg);
    var t := t + "}";
    t + "}"
  }

  /** `write_text`: the first bytes of the complete report, as many as fit. */
  method WriteText(buf: array<char>, s: ConfigSummary) returns (n: nat)
    modifies buf
    ensures Holds(buf[..], old(buf[..]), ConfigText(s), n)
  {
    hide Holds, Digits, YesNo, FieldNum, FieldBool, FieldStr;
    var w := new Writer(buf);
    w.PushStr("Edgine Configuration\n");
    w.PushStr("==========================\n");
    w.PushStr("max_cpus:        ");
    w.PushU64(s.maxCpus);
    w.PushStr("\nactual_cpus:     ");
    w.PushU64(s.actualCpus);
    w.PushStr("\nmax_irqs:        ");
    w.PushU64(s.maxIrqs);
    w.PushStr("\nmax_processes:   ");
    w.PushU64(s.maxProcesses);
    w.PushStr("\nmax_threads:     ");
    w.PushU64(s.maxThreads);
    w.PushStr("\npage_size:       ");
    w.PushU64(s.pageSize);
    w.PushStr("\nkaslr_offset:    0x");
    w.PushU64(s.kaslrOffset);
    w.PushStr("\napic_enabled:    ");
    w.PushBool(s.apicEnabled);
    w.PushStr("\nioapic_enabled:  ");
    w.PushBool(s.ioapicEnabled);
    w.PushStr("\n-- capabilities --\n");
    w.PushStr("smp:             ");
    w.PushBool(s.caps.smp);
    w.PushStr("\npreempt:         ");
    w.PushBool(s.caps.preempt);
    w.PushStr("\nkaslr:           ");
    w.PushBool(s.caps.kaslr);
    w.PushStr("\nkpti:            ");
    w.PushBool(s.caps.kpti);
    w.PushStr("\nfreg:         ");
    w.PushBool(s.caps.freg);
    w.PushStr("\n");
    n := w.pos;
  }

  /** `write_json`. */
  method WriteJson(buf: array<char>, s: ConfigSummary) returns (n: nat)
    modifies buf
    ensures Holds(buf[..], old(buf[..]), ConfigJson(s), n)
  {
    hide Holds, Digits, YesNo, FieldNum, FieldBool, FieldStr;
    var w := new Writer(buf);
    w.PushStr("{");
    w.PushFieldStr("format_version", "1");
    w.PushStr(",");
    w.PushFieldStr("kernel", "Edgine");
    w.PushStr(",");
    w.PushFieldNum("max_cpus", s.maxCpus);
    w.PushStr(",");
    w.PushFieldNum("actual_cpus", s.actualCpus);
    w.PushStr(",");
    w.PushFieldNum("max_irqs", s.maxIrqs);
    w.PushStr(",");
    w.PushFieldNum("max_processes", s.maxProcesses);
    w.PushStr(",");
    w.PushFieldNum("max_threads", s.maxThreads);
    w.PushStr(",");
    w.PushFieldNum("page_size", s.pageSize);
    w.PushStr(",");
    w.PushFieldNum("kaslr_offset", s.kaslrOffset);
    w.PushStr(",");
    w.PushFieldBool("apic_enabled", s.apicEnabled);
    w.PushStr(",");
    w.PushFieldBool("ioapic_enabled", s.ioapicEnabled);
    w.PushStr(",");
    w.PushStr("\"capabilities\":{");
    w.PushFieldBool("smp", s.caps.smp);
    w.PushStr(",");
    w.PushFieldBool("preempt", s.caps.preempt);
    w.PushStr(",");
    w.PushFieldBool("kaslr", s.caps.kaslr);
    w.PushStr(",");
    w.PushFieldBool("kpti", s.caps.kpti);
    w.PushStr(",");
    w.PushFieldBool("freg", s.caps.freg);
    w.PushStr("}");
    w.PushStr("}");
    n := w.pos;
  }

  // ---- log sinks -------------------------------------------------------------------------

  /** What the registry answers: a slot may be empty below the count. */
  type SinkSlots = s: seq<Option<string>> | |s| == MAX_LOG_SINKS witness [None, None, None, None]

  function SinkNames(slots: SinkSlots, count: nat): (names: seq<string>)
    ensures |names| == Min(count, MAX_LOG_SINKS)
  {
    seq(Min(count, MAX_LOG_SINKS), i requires 0 <= i < MAX_LOG_SINKS => slots[i].UnwrapOr(""))
  }

  /** Empty slots, and those past the count, keep what the buffer held. */
  method ListNames(slots: SinkSlots, count: nat, buf: array<string>) returns (n: nat)
    requires buf.Length == MAX_LOG_SINKS
    modifies buf
    ensures n == Min(count, MAX_LOG_SINKS)
    ensures forall i :: 0 <= i < n ==> buf[i] == slots[i].UnwrapOr(old(buf[i]))
    ensures forall i :: n <= i < MAX_LOG_SINKS ==> buf[i] == old(buf[i])
  {
    n := 0;
    while n < count && n < buf.Length
      invariant n <= Min(count, MAX_LOG_SINKS)
      invariant forall i :: 0 <= i < n ==> buf[i] == slots[i].UnwrapOr(old(buf[i]))
      invariant forall i :: n <= i < MAX_LOG_SINKS ==> buf[i] == old(buf[i])
    {
      if slots[n].Some? {
        buf[n] := slots[n].value;
      }
      n := n + 1;
    }
  }

  /** Into a blank table, as the renderers use it. */
  method RegisteredNames(slots: SinkSlots, count: nat) returns (names: seq<string>)
    ensures names == SinkNames(slots, count) && |names| <= MAX_LOG_SINKS
  {
    var table := new string[MAX_LOG_SINKS](_ => "");
    var n := ListNames(slots, count, table);
    names := table[..n];
  }

  /** The lines for the first sinks, after `t`. */
  function SinkLines(t: string, names: seq<string>): string {
    if names == [] then t
    else
      var i := |names| - 1;
      SinkLines(t, names[..i]) + Digits(i) + ": " + names[i] + "\n"
  }

  function SinkText(names: seq<string>): string {
    SinkLines("" + "Edgine klog sinks\n" + "===============\n" + "count: " + Digits(|names|) + "\n", names)
  }

  function SinkItems(t: string, names: seq<string>): string {
    if names == [] then t
    else
      var i := |names| - 1;
      var before := SinkItems(t, names[..i]);
      (if i > 0 then before + "," else before) + "\"" + names[i] + "\""
  }

  function SinkJson(names: seq<string>): string {
    SinkItems("" + "{\"format_version\":\"1\",\"count\":" + Digits(|names|) + ",\"sinks\":[", names) + "]}"
  }

  method PushSinkLine(w: Writer, i: U64, name: string)
    requires w.Valid()
    modifies w, w.buf
    ensures w.Valid() && w.full == old(w.full) + Digits(i) + ": " + name + "\n"
  {
    hide Holds, Digits;
    w.PushU64(i);
    w.PushStr(": ");
    w.PushStr(name);
    w.PushStr("\n");
  }

  method PushSinkItem(w: Writer, i: nat, name: string)
    requires w.Valid()
    modifies w, w.buf
    ensures w.Valid()
    ensures w.full == (if i > 0 then old(w.full) + "," else old(w.full)) + "\"" + name + "\""
  {
    hide Holds;
    if i > 0 {
      w.PushStr(",");
    }
    w.PushStr("\"");
    w.PushStr(name);
    w.PushStr("\"");
  }

  /** `render_text`: the first bytes of the complete listing, as many as fit. */
  method RenderText(buf: array<char>, slots: SinkSlots, count: nat) returns (n: nat)
    modifies buf
    ensures Holds(buf[..], old(buf[..]), SinkText(SinkNames(slots, count)), n)
  {
    hide Holds, Digits, SinkNames;
    var w := new Writer(buf);
    var names := RegisteredNames(slots, count);
    var k := |names|;
    w.PushStr("Edgine klog sinks\n");
    w.PushStr("===============\n");
    w.PushStr("count: ");
    w.PushU64(k);
    w.PushStr("\n");
    ghost var t := w.full;
    for i := 0 to k
      invariant w.Valid() && w.full == SinkLines(t, names[..i])
    {
      PushSinkLine(w, i, names[i]);
      assert names[..i + 1][..i] == names[..i];
    }
    assert names[..k] == names;
    n := w.pos;
  }

  /** `render_json`. */
  method RenderJson(buf: array<char>, slots: SinkSlots, count: nat) returns (n: nat)
    modifies buf
    ensures Holds(buf[..], old(buf[..]), SinkJson(SinkNames(slots, count)), n)
  {
    hide Holds, Digits, SinkNames;
    var w := new Writer(buf);
    var names := RegisteredNames(slots, count);
    var k := |names|;
    w.PushStr("{\"format_version\":\"1\",\"count\":");
    w.PushU64(k);
    w.PushStr(",\"sinks\":[");
    ghost var t := w.full;
    for i := 0 to k
      invariant w.Valid() && w.full == SinkItems(t, names[..i])
    {
      PushSinkItem(w, i, names[i]);
      assert names[..i + 1][..i] == names[..i];
    }
    assert names[..k] == names;
    w.PushStr("]}");
    n := w.pos;
  }

  // ---- truncation ------------------------------------------------------------------------

  /** What holding means for a reader: two buffers show the same text as far as the shorter one goes. */
  lemma TruncationsAgree(a: seq<char>, wasA: seq<char>, n: nat, b: seq<char>, wasB: seq<char>, m: nat, full: string)
    requires Holds(a, wasA, full, n) && Holds(b, wasB, full, m) && |a| <= |b|
    ensures n <= m && a[..n] == b[..n]
    ensures |full| <= |a| ==> a[..n] == full
  {
    assert a[..n] == full[..n] && b[..m] == full[..m];
  }
}
