/** What the configuration reports say: behind each label stands its own field. */
module RenderFields {
  import opened Machine
  import opened Decimal
  import opened Render

  /** Somewhere in `text`, `name` is followed by `value` and then `after`. */
  ghost predicate Shows(text: string, name: string, value: string, after: char) {
    exists pre :: pre + name + value + [after] <= text
  }

  lemma ShownRow(text: string, t: string, name: string, value: string, after: char)
    requires t + name + value + [after] <= text && name != ""
    ensures Shows(text, name, value, after) && t + [name[0]] <= text
  {
    var row := t + name + value + [after];
    assert row[..|t| + 1] == t + [name[0]];
    assert text[..|t| + 1] == row[..|t| + 1];
  }

  lemma Earlier(text: string, t: string, x: string, after: char)
    requires t + x + [after] <= text && x != ""
    ensures t + [x[0]] <= text
  {
    assert (t + x + [after])[..|t| + 1] == t + [x[0]];
    assert text[..|t| + 1] == (t + x + [after])[..|t| + 1];
  }

  /** The settings that are numbers, each behind its own label. */
  ghost predicate NumberLines(text: string, s: ConfigSummary) {
    && Shows(text, "max_cpus:        ", Digits(s.maxCpus), '\n')
    && Shows(text, "\nactual_cpus:     ", Digits(s.actualCpus), '\n')
    && Shows(text, "\nmax_irqs:        ", Digits(s.maxIrqs), '\n')
    && Shows(text, "\nmax_processes:   ", Digits(s.maxProcesses), '\n')
    && Shows(text, "\nmax_threads:     ", Digits(s.maxThreads), '\n')
    && Shows(text, "\npage_size:       ", Digits(s.pageSize), '\n')
    && Shows(text, "\nkaslr_offset:    0x", Digits(s.kaslrOffset), '\n')
  }

  /** The settings that are flags. */
  ghost predicate FlagLines(text: string, s: ConfigSummary) {
    && Shows(text, "\napic_enabled:    ", YesNo(s.apicEnabled), '\n')
    && Shows(text, "\nioapic_enabled:  ", YesNo(s.ioapicEnabled), '\n')
    && Shows(text, "smp:             ", YesNo(s.caps.smp), '\n')
    && Shows(text, "\npreempt:         ", YesNo(s.caps.preempt), '\n')
    && Shows(text, "\nkaslr:           ", YesNo(s.caps.kaslr), '\n')
    && Shows(text, "\nkpti:            ", YesNo(s.caps.kpti), '\n')
    && Shows(text, "\nfreg:         ", YesNo(s.caps.freg), '\n')
  }

  function TextNumbers(t0: string, s: ConfigSummary): string {
    var t1 := t0 + "max_cpus:        " + Digits(s.maxCpus);
    var t2 := t1 + "\nactual_cpus:     " + Digits(s.actualCpus);
    var t3 := t2 + "\nmax_irqs:        " + Digits(s.maxIrqs);
    var t4 := t3 + "\nmax_processes:   " + Digits(s.maxProcesses);
    var t5 := t4 + "\nmax_threads:     " + Digits(s.maxThreads);
    var t6 := t5 + "\npage_size:       " + Digits(s.pageSize);
    var t7 := t6 + "\nkaslr_offset:    0x" + Digits(s.kaslrOffset);
    t7
  }

  function TextFlags(t7: string, s: ConfigSummary): string {
    var t8 := t7 + "\napic_enabled:    " + YesNo(s.apicEnabled);
    var t9 := t8 + "\nioapic_enabled:  " + YesNo(s.ioapicEnabled);
    var t10 := t9 + "\n-- capabilities --\n" + "smp:             " + YesNo(s.caps.smp);
    var t11 := t10 + "\npreempt:         " + YesNo(s.caps.preempt);
    var t12 := t11 + "\nkaslr:           " + YesNo(s.caps.kaslr);
    var t13 := t12 + "\nkpti:            " + YesNo(s.caps.kpti);
    var t14 := t13 + "\nfreg:         " + YesNo(s.caps.freg);
    t14 + "\n"
  }

  function TextStart(): string {
    "" + "Edgine Configuration\n" + "==========================\n"
  }

  lemma TextSplits(s: ConfigSummary)
    ensures ConfigText(s) == TextFlags(TextNumbers(TextStart(), s), s)
  {
    hide Digits, YesNo;
  }

  lemma TextFlagsShown(t7: string, s: ConfigSummary)
    ensures FlagLines(TextFlags(t7, s), s) && t7 + ['\n'] <= TextFlags(t7, s)
  {
    hide YesNo, Shows;
    var text := TextFlags(t7, s);
    var t8 := t7 + "\napic_enabled:    " + YesNo(s.apicEnabled);
    var t9 := t8 + "\nioapic_enabled:  " + YesNo(s.ioapicEnabled);
    var t10 := t9 + "\n-- capabilities --\n" + "smp:             " + YesNo(s.caps.smp);
    var t11 := t10 + "\npreempt:         " + YesNo(s.caps.preempt);
    var t12 := t11 + "\nkaslr:           " + YesNo(s.caps.kaslr);
    var t13 := t12 + "\nkpti:            " + YesNo(s.caps.kpti);
    var t14 := t13 + "\nfreg:         " + YesNo(s.caps.freg);
    assert text == t14 + "\n";
    hide TextFlags;
    ShownRow(text, t13, "\nfreg:         ", YesNo(s.caps.freg), '\n');
    ShownRow(text, t12, "\nkpti:            ", YesNo(s.caps.kpti), '\n');
    ShownRow(text, t11, "\nkaslr:           ", YesNo(s.caps.kaslr), '\n');
    ShownRow(text, t10, "\npreempt:         ", YesNo(s.caps.preempt), '\n');
    ShownRow(text, t9 + "\n-- capabilities --\n", "smp:             ", YesNo(s.caps.smp), '\n');
    Earlier(text, t9, "\n-- capabilities --\n", 's');
    ShownRow(text, t8, "\nioapic_enabled:  ", YesNo(s.ioapicEnabled), '\n');
    ShownRow(text, t7, "\napic_enabled:    ", YesNo(s.apicEnabled), '\n');
  }

  lemma TextNumbersShown(text: string, t0: string, s: ConfigSummary)
    requires TextNumbers(t0, s) + ['\n'] <= text
    ensures NumberLines(text, s)
  {
    hide Digits, Shows;
    var t1 := t0 + "max_cpus:        " + Digits(s.maxCpus);
    var t2 := t1 + "\nactual_cpus:     " + Digits(s.actualCpus);
    var t3 := t2 + "\nmax_irqs:        " + Digits(s.maxIrqs);
    var t4 := t3 + "\nmax_processes:   " + Digits(s.maxProcesses);
    var t5 := t4 + "\nmax_threads:     " + Digits(s.maxThreads);
    var t6 := t5 + "\npage_size:       " + Digits(s.pageSize);
    ShownRow(text, t6, "\nkaslr_offset:    0x", Digits(s.kaslrOffset), '\n');
    ShownRow(text, t5, "\npage_size:       ", Digits(s.pageSize), '\n');
    ShownRow(text, t4, "\nmax_threads:     ", Digits(s.maxThreads), '\n');
    ShownRow(text, t3, "\nmax_processes:   ", Digits(s.maxProcesses), '\n');
    ShownRow(text, t2, "\nmax_irqs:        ", Digits(s.maxIrqs), '\n');
    ShownRow(text, t1, "\nactual_cpus:     ", Digits(s.actualCpus), '\n');
    ShownRow(text, t0, "max_cpus:        ", Digits(s.maxCpus), '\n');
  }

  /** The text report gives each setting a line, with its own value behind its label. */
  lemma TextFields(s: ConfigSummary)
    ensures NumberLines(ConfigText(s), s) && FlagLines(ConfigText(s), s)
  {
    hide ConfigText, NumberLines, FlagLines, TextFlags, TextNumbers, TextStart;
    TextSplits(s);
    TextFlagsShown(TextNumbers(TextStart(), s), s);
    TextNumbersShown(ConfigText(s), TextStart(), s);
  }

  // ---- JSON ------------------------------------------------------------------------------

  function TrueFalse(b: bool): string {
    if b then "true" else "false"
  }

  /** `"key":` */
  function Key(k: string): string {
    "\"" + k + "\":"
  }

  lemma KeyStarts(k: string)
    ensures |Key(k)| >= 3 && Key(k)[0] == '"'
  {
  }

  lemma NumIsRow(t: string, k: string, v: U64)
    ensures FieldNum(t, k, v) == t + Key(k) + Digits(v)
  {
    hide Digits;
    assert t + "\"" + k + "\":" == t + ("\"" + k + "\":");
  }

  lemma BoolIsRow(t: string, k: string, v: bool)
    ensures FieldBool(t, k, v) == t + Key(k) + TrueFalse(v)
  {
    assert t + "\"" + k + "\":" == t + ("\"" + k + "\":");
  }

  /** One member of the JSON object, and what stands before it. */
  lemma ShownNum(text: string, t: string, k: string, v: U64)
    requires FieldNum(t + ",", k, v) + [','] <= text
    ensures Shows(text, Key(k), Digits(v), ',') && t + [','] <= text
  {
    hide Digits, FieldNum, Key;
    NumIsRow(t + ",", k, v);
    KeyStarts(k);
    ShownRow(text, t + ",", Key(k), Digits(v), ',');
    assert t + "," + [Key(k)[0]] == t + ("," + [Key(k)[0]]);
    Earlier(text, t, ",", Key(k)[0]);
  }

  lemma ShownBool(text: string, t: string, sep: string, k: string, v: bool, after: char)
    requires sep != "" && FieldBool(t + sep, k, v) + [after] <= text
    ensures Shows(text, Key(k), TrueFalse(v), after) && t + [sep[0]] <= text
  {
    hide FieldBool, Key, TrueFalse;
    BoolIsRow(t + sep, k, v);
    KeyStarts(k);
    ShownRow(text, t + sep, Key(k), TrueFalse(v), after);
    Earlier(text, t, sep, Key(k)[0]);
  }

  /** The settings that are numbers, each under its own key. */
  ghost predicate NumberMembers(text: string, s: ConfigSummary) {
    && Shows(text, Key("max_cpus"), Digits(s.maxCpus), ',')
    && Shows(text, Key("actual_cpus"), Digits(s.actualCpus), ',')
    && Shows(text, Key("max_irqs"), Digits(s.maxIrqs), ',')
    && Shows(text, Key("max_processes"), Digits(s.maxProcesses), ',')
    && Shows(text, Key("max_threads"), Digits(s.maxThreads), ',')
    && Shows(text, Key("page_size"), Digits(s.pageSize), ',')
    && Shows(text, Key("kaslr_offset"), Digits(s.kaslrOffset), ',')
  }

  /** The settings that are flags. */
  ghost predicate FlagMembers(text: string, s: ConfigSummary) {
    && Shows(text, Key("apic_enabled"), TrueFalse(s.apicEnabled), ',')
    && Shows(text, Key("ioapic_enabled"), TrueFalse(s.ioapicEnabled), ',')
    && Shows(text, Key("smp"), TrueFalse(s.caps.smp), ',')
    && Shows(text, Key("preempt"), TrueFalse(s.caps.preempt), ',')
    && Shows(text, Key("kaslr"), TrueFalse(s.caps.kaslr), ',')
    && Shows(text, Key("kpti"), TrueFalse(s.caps.kpti), ',')
    && Shows(text, Key("freg"), TrueFalse(s.caps.freg), '}')
  }

  function JsonNumbers(t0: string, s: ConfigSummary): string {
    var t1 := FieldNum(t0 + ",", "max_cpus", s.maxCpus);
    var t2 := FieldNum(t1 + ",", "actual_cpus", s.actualCpus);
    var t3 := FieldNum(t2 + ",", "max_irqs", s.maxIrqs);
    var t4 := FieldNum(t3 + ",", "max_processes", s.maxProcesses);
    var t5 := FieldNum(t4 + ",", "max_threads", s.maxThreads);
    var t6 := FieldNum(t5 + ",", "page_size", s.pageSize);
    var t7 := FieldNum(t6 + ",", "kaslr_offset", s.kaslrOffset);
    t7
  }

  function JsonFlags(t7: string, s: ConfigSummary): string {
    var t8 := FieldBool(t7 + ",", "apic_enabled", s.apicEnabled);
    var t9 := FieldBool(t8 + ",", "ioapic_enabled", s.ioapicEnabled);
    var t10 := FieldBool(t9 + "," + "\"capabilities\":{", "smp", s.caps.smp);
    var t11 := FieldBool(t10 + ",", "preempt", s.caps.preempt);
    var t12 := FieldBool(t11 + ",", "kaslr", s.caps.kaslr);
    var t13 := FieldBool(t12 + ",", "kpti", s.caps.kpti);
    var t14 := FieldBool(t13 + ",", "freg", s.caps.freg);
    t14 + "}" + "}"
  }

  function JsonStart(): string {
    FieldStr(FieldStr("" + "{", "format_version", "1") + ",", "kernel", "Edgine")
  }

  lemma JsonSplits(s: ConfigSummary)
    ensures ConfigJson(s) == JsonFlags(JsonNumbers(JsonStart(), s), s)
  {
    hide FieldNum, FieldBool, FieldStr;
  }

  lemma JsonFlagsShown(t7: string, s: ConfigSummary)
    ensures FlagMembers(JsonFlags(t7, s), s) && t7 + [','] <= JsonFlags(t7, s)
  {
    hide TrueFalse, Shows, FieldBool, Key;
    var text := JsonFlags(t7, s);
    var t8 := FieldBool(t7 + ",", "apic_enabled", s.apicEnabled);
    var t9 := FieldBool(t8 + ",", "ioapic_enabled", s.ioapicEnabled);
    var t10 := FieldBool(t9 + "," + "\"capabilities\":{", "smp", s.caps.smp);
    var t11 := FieldBool(t10 + ",", "preempt", s.caps.preempt);
    var t12 := FieldBool(t11 + ",", "kaslr", s.caps.kaslr);
    var t13 := FieldBool(t12 + ",", "kpti", s.caps.kpti);
    var t14 := FieldBool(t13 + ",", "freg", s.caps.freg);
    assert text == t14 + "}" + "}";
    hide JsonFlags;
    assert t14 + ['}'] <= text;
    ShownBool(text, t13, ",", "freg", s.caps.freg, '}');
    ShownBool(text, t12, ",", "kpti", s.caps.kpti, ',');
    ShownBool(text, t11, ",", "kaslr", s.caps.kaslr, ',');
    ShownBool(text, t10, ",", "preempt", s.caps.preempt, ',');
    ShownBool(text, t9 + ",", "\"capabilities\":{", "smp", s.caps.smp, ',');
    Earlier(text, t9, ",", '"');
    ShownBool(text, t8, ",", "ioapic_enabled", s.ioapicEnabled, ',');
    ShownBool(text, t7, ",", "apic_enabled", s.apicEnabled, ',');
  }

  lemma JsonNumbersShown(text: string, t0: string, s: ConfigSummary)
    requires JsonNumbers(t0, s) + [','] <= text
    ensures NumberMembers(text, s)
  {
    hide Digits, Shows, FieldNum, Key;
    var t1 := FieldNum(t0 + ",", "max_cpus", s.maxCpus);
    var t2 := FieldNum(t1 + ",", "actual_cpus", s.actualCpus);
    var t3 := FieldNum(t2 + ",", "max_irqs", s.maxIrqs);
    var t4 := FieldNum(t3 + ",", "max_processes", s.maxProcesses);
    var t5 := FieldNum(t4 + ",", "max_threads", s.maxThreads);
    var t6 := FieldNum(t5 + ",", "page_size", s.pageSize);
    ShownNum(text, t6, "kaslr_offset", s.kaslrOffset);
    ShownNum(text, t5, "page_size", s.pageSize);
    ShownNum(text, t4, "max_threads", s.maxThreads);
    ShownNum(text, t3, "max_processes", s.maxProcesses);
    ShownNum(text, t2, "max_irqs", s.maxIrqs);
    ShownNum(text, t1, "actual_cpus", s.actualCpus);
    ShownNum(text, t0, "max_cpus", s.maxCpus);
  }

  /** The JSON report holds each setting as a member with its own value. */
  lemma JsonFields(s: ConfigSummary)
    ensures NumberMembers(ConfigJson(s), s) && FlagMembers(ConfigJson(s), s)
  {
    hide ConfigJson, NumberMembers, FlagMembers, JsonFlags, JsonNumbers, JsonStart;
    JsonSplits(s);
    JsonFlagsShown(JsonNumbers(JsonStart(), s), s);
    JsonNumbersShown(ConfigJson(s), JsonStart(), s);
  }

  // ---- log sinks -------------------------------------------------------------------------

  lemma {:induction false} SinkLineShown(t: string, names: seq<string>, i: nat)
    requires i < |names|
    ensures Shows(SinkLines(t, names), Digits(i) + ": ", names[i], '\n')
    decreases |names|
  {
    hide Digits, Shows;
    var last := |names| - 1;
    var before := SinkLines(t, names[..last]);
    var text := SinkLines(t, names);
    if i == last {
      assert before + Digits(i) + ": " == before + (Digits(i) + ": ");
      ShownRow(text, before, Digits(i) + ": ", names[i], '\n');
    } else {
      SinkLineShown(t, names[..last], i);
      assert text == before + (Digits(last) + ": " + names[last] + "\n");
      ShownLonger(before, Digits(last) + ": " + names[last] + "\n", Digits(i) + ": ", names[i], '\n');
    }
  }

  lemma ShownLonger(text: string, more: string, name: string, value: string, after: char)
    requires Shows(text, name, value, after)
    ensures Shows(text + more, name, value, after)
  {
    var pre :| pre + name + value + [after] <= text;
    assert pre + name + value + [after] <= text + more;
  }

  /** The sink listing gives each sink a line with its number and its name. */
  lemma SinkTextFields(names: seq<string>, i: nat)
    requires i < |names|
    ensures Shows(SinkText(names), Digits(i) + ": ", names[i], '\n')
  {
    hide Digits, Shows, SinkLines;
    SinkLineShown("" + "Edgine klog sinks\n" + "===============\n" + "count: " + Digits(|names|) + "\n", names, i);
  }

  lemma {:induction false} SinkItemShown(t: string, names: seq<string>, i: nat)
    requires i < |names|
    ensures Shows(SinkItems(t, names), "\"", names[i], '"')
    decreases |names|
  {
    hide Shows;
    var last := |names| - 1;
    var text := SinkItems(t, names);
    var before := SinkItems(t, names[..last]);
    if i == last {
      ShownRow(text, if i > 0 then before + "," else before, "\"", names[i], '"');
    } else {
      SinkItemShown(t, names[..last], i);
      assert text == before + ("," + "\"" + names[last] + "\"");
      ShownLonger(before, "," + "\"" + names[last] + "\"", "\"", names[i], '"');
    }
  }

  /** The sink JSON holds each name in quotes. */
  lemma SinkJsonFields(names: seq<string>, i: nat)
    requires i < |names|
    ensures Shows(SinkJson(names), "\"", names[i], '"')
  {
    hide Digits, Shows, SinkItems;
    var t := "" + "{\"format_version\":\"1\",\"count\":" + Digits(|names|) + ",\"sinks\":[";
    SinkItemShown(t, names, i);
    ShownLonger(SinkItems(t, names), "]}", "\"", names[i], '"');
  }
}
