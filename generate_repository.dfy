/** The sequence-code generator. Each alias owns a counter row holding the
    next queue number and a "separator" date stamp (layout "060102") that marks
    the month the queue belongs to. A code is the stamp's year and month, the
    queue as "%04d" and the day, with an optional prefix and suffix. Today's
    stamp and the random number of the fallback code are parameters. */
module Generates {
  import opened Common
  import opened Dates
  import opened Database

  /** The separator as it is compared: re-formatted when it parses with the
      "060102" layout, today's stamp when it does not. */
  function SeparatorStamp(separator: string, today: string): (s: string)
    requires IsDateStamp(today)
    ensures |s| == 6 && AllDigits(s)
  {
    match ParseYYMMDD(separator)
    case Some(d) => FormatYYMMDD(d)
    case None => today
  }

  /** The queue restarts when it reached 9999 or the month changed. */
  predicate RollsOver(g: Generate, today: string)
    requires IsDateStamp(today)
  {
    g.queue == 9999 || today[..4] != SeparatorStamp(g.separator, today)[..4]
  }

  /** The counter row as it stands when the code is emitted. */
  function Emitted(g: Generate, today: string): (e: Generate)
    requires IsDateStamp(today)
    ensures e.alias == g.alias && e.prefix == g.prefix && e.suffix == g.suffix
    ensures RollsOver(g, today) ==> e.queue == 1 && e.separator == today
    ensures !RollsOver(g, today) ==> e == g
  {
    if RollsOver(g, today) then g.(queue := 1, separator := today) else g
  }

  /** The committed row: the emitted queue plus one. */
  function Advanced(g: Generate, today: string): (a: Generate)
    requires IsDateStamp(today)
    ensures a == Emitted(g, today).(queue := Emitted(g, today).queue + 1)
  {
    var e := Emitted(g, today);
    e.(queue := e.queue + 1)
  }

  /** YYMM + "%04d" queue + DD. */
  function CoreCode(queue: int, today: string): string
    requires IsDateStamp(today)
  {
    today[..4] + Pad4(queue) + today[4..6]
  }

  predicate Present(affix: Option<string>) { affix.Some? && affix.value != "" }

  function Affixed(core: string, prefix: Option<string>, suffix: Option<string>): (code: string)
    ensures !Present(prefix) && !Present(suffix) ==> code == core
    ensures Present(prefix) && Present(suffix) ==> code == prefix.value + core + suffix.value
    ensures Present(prefix) && !Present(suffix) ==> code == prefix.value + core
    ensures !Present(prefix) && Present(suffix) ==> code == core + suffix.value
  {
    var withPrefix := if Present(prefix) then prefix.value + core else core;
    if Present(suffix) then withPrefix + suffix.value else withPrefix
  }

  /** The code emitted from a counter row. */
  function CodeFor(g: Generate, today: string): string
    requires IsDateStamp(today)
  {
    var e := Emitted(g, today);
    Affixed(CoreCode(e.queue, today), e.prefix, e.suffix)
  }

  /** "ER-%05d" of a number drawn from 10000..99999. */
  function FallbackCode(rnd: nat): (code: string)
    requires rnd < 90000
  {
    "ER-" + NatToString(rnd + 10000)
  }

  class GenerateRepository {
    const db: Db

    constructor(db: Db)
      ensures this.db == db
    {
      this.db := db;
    }

    /** The counter row for an alias; soft-deleted rows included, as with Unscoped. */
    method FindByAlias(alias: string) returns (g: Option<Generate>)
      ensures g.Some? <==> alias in db.generates
      ensures g.Some? ==> g.value == db.generates[alias]
    {
      if alias in db.generates {
        g := Some(db.generates[alias]);
      } else {
        g := None;
      }
    }

    /** Save: the row replaces the stored one for its alias, or nothing is
        written when the save fails. */
    method Update(g: Generate, fails: bool) returns (ok: bool)
      modifies db`generates
      ensures ok == !fails
      ensures db.generates == if fails then old(db.generates) else old(db.generates)[g.alias := g]
    {
      ok := !fails;
      if ok {
        db.generates := db.generates[g.alias := g];
      }
    }

    /** GetCode: the fallback code and no write for an unknown alias; otherwise
        the code of the emitted row, which a committing call stores advanced by
        one and a preview call leaves unstored. The error of the Save is
        dropped: when it fails the code is still returned and the stored row
        stays as it was, so the next call hands out the same code again. */
    method GetCode(alias: string, today: string, rnd: nat, isNotPreview: bool, saveFails: bool)
      returns (code: string)
      requires IsDateStamp(today) && rnd < 90000
      requires GeneratesKeyed(db.generates)
      modifies db`generates
      ensures alias !in old(db.generates) ==> code == FallbackCode(rnd) && db.generates == old(db.generates)
      ensures alias in old(db.generates) ==>
                code == CodeFor(old(db.generates)[alias], today)
                && db.generates == if isNotPreview && !saveFails
                                   then old(db.generates)[alias := Advanced(old(db.generates)[alias], today)]
                                   else old(db.generates)
      ensures GeneratesKeyed(db.generates)
    {
      var found := FindByAlias(alias);
      if found.None? {
        code := "ER-" + NatToString(rnd + 10000);
        return;
      }
      var gen := found.value;
      var separatorStr := today;
      var parsed := ParseYYMMDD(gen.separator);
      if parsed.Some? {
        separatorStr := FormatYYMMDD(parsed.value);
      }
      assert separatorStr == SeparatorStamp(gen.separator, today);
      if gen.queue == 9999 || today[..4] != separatorStr[..4] {
        gen := gen.(queue := 1, separator := today);
      }
      assert gen == Emitted(found.value, today);
      code := today[..4] + Pad4(gen.queue) + today[4..6];
      ghost var core := code;
      assert core == CoreCode(gen.queue, today);
      if gen.prefix.Some? && gen.prefix.value != "" {
        code := gen.prefix.value + code;
      }
      if gen.suffix.Some? && gen.suffix.value != "" {
        code := code + gen.suffix.value;
      }
      assert code == Affixed(core, gen.prefix, gen.suffix);
      if isNotPreview {
        gen := gen.(queue := gen.queue + 1);
        var _ := Update(gen, saveFails);
      }
    }
  }

  // ---------------------------------------------------------------------
  // Properties of the generator

  /** The fallback code is "ER-" and five digits worth 10000..99999. */
  lemma FallbackShape(rnd: nat)
    requires rnd < 90000
    ensures |FallbackCode(rnd)| == 8 && FallbackCode(rnd)[..3] == "ER-"
    ensures AllDigits(FallbackCode(rnd)[3..])
    ensures 10000 <= DigitsValue(FallbackCode(rnd)[3..]) <= 99999
  {
    var n := rnd + 10000;
    var s := NatToString(n);
    DigitsValueOfNatToString(n);
    NatToStringLength(n / 10);
    assert FallbackCode(rnd)[3..] == s;
    NatToStringDigitCount(n);
  }

  /** A five-digit number renders as five characters. */
  lemma {:induction false} NatToStringDigitCount(n: nat)
    requires 10000 <= n <= 99999
    ensures |NatToString(n)| == 5
  {
    NatToStringLength(n / 10);
    assert NatToString(n) == NatToString(n / 10) + [DigitChar(n % 10)];
    assert 1000 <= n / 10;
    NatToStringAtLeast(n / 10);
  }

  lemma {:induction false} NatToStringAtLeast(n: nat)
    requires 1000 <= n <= 9999
    ensures |NatToString(n)| == 4
  {
    var q := n / 10;
    assert 100 <= q <= 999;
    var q2 := q / 10;
    assert 10 <= q2 <= 99;
    assert |NatToString(q2)| == 2;
    assert |NatToString(q)| == 3;
  }

  /** When the separator does not parse it is replaced by today, so only a
      queue of 9999 restarts the counter. */
  lemma UnparseableSeparator(g: Generate, today: string)
    requires IsDateStamp(today) && ParseYYMMDD(g.separator).None?
    ensures RollsOver(g, today) <==> g.queue == 9999
  {
  }

  /** A separator written by the generator itself names its own month, so the
      counter restarts exactly when the queue is full or today's year and
      month differ from the separator's: the reset is monthly, not daily. */
  lemma MonthlyReset(g: Generate, today: string)
    requires IsDateStamp(today) && IsDateStamp(g.separator)
    ensures RollsOver(g, today) <==> g.queue == 9999 || today[..4] != g.separator[..4]
  {
    StampRoundTrip(g.separator);
  }

  /** Queues 1..9998 with no prefix or suffix give a ten-character code:
      YYMM, four queue digits and DD. */
  lemma CodeLayout(g: Generate, today: string)
    requires IsDateStamp(today) && 1 <= g.queue <= 9998
    requires !Present(g.prefix) && !Present(g.suffix)
    ensures var code := CodeFor(g, today);
            var q := Emitted(g, today).queue;
            |code| == 10 && AllDigits(code)
            && code[..4] == today[..4] && code[4..8] == Pad4(q) && code[8..] == today[4..6]
            && DigitsValue(code[4..8]) == q
  {
    var q := Emitted(g, today).queue;
    Pad4Facts(q);
    var code := CodeFor(g, today);
    assert code == today[..4] + Pad4(q) + today[4..6];
    assert code[4..8] == Pad4(q);
  }

  /** Two committed calls in the same month, starting below 9999, hand out
      different codes when the first call's Save succeeds, so that the second
      starts from the advanced row: it emits a different queue number in the
      same position of the code. After a failed Save, GetCode leaves the row
      unchanged, so the second call emits the same code as the first. */
  lemma {:induction false} ConsecutiveCodesDistinct(g: Generate, day1: string, day2: string)
    requires IsDateStamp(day1) && IsDateStamp(day2) && day1[..4] == day2[..4]
    requires 0 <= g.queue <= 9998
    ensures CodeFor(g, day1) != CodeFor(Advanced(g, day1), day2)
  {
    var e1 := Emitted(g, day1);
    var g1 := Advanced(g, day1);
    var e2 := Emitted(g1, day2);
    assert e1.queue == 1 || e1.queue == g.queue;
    if RollsOver(g, day1) {
      StampRoundTrip(day1);
      assert SeparatorStamp(g1.separator, day2) == day1;
      assert !RollsOver(g1, day2);
    } else {
      assert SeparatorStamp(g1.separator, day2)[..4] == SeparatorStamp(g.separator, day1)[..4];
    }
    assert 0 <= e1.queue <= 9998 && e2.queue != e1.queue && 0 <= e2.queue <= 9999;
    Pad4Facts(e1.queue);
    Pad4Facts(e2.queue);
    Pad4Injective(e1.queue, e2.queue);
    var c1 := CoreCode(e1.queue, day1);
    var c2 := CoreCode(e2.queue, day2);
    assert c1[4..8] == Pad4(e1.queue) && c2[4..8] == Pad4(e2.queue);
    AffixedPreservesCore(c1, c2, e1.prefix, e1.suffix);
  }

  /** Affixes of the same row keep distinct cores of equal length apart. */
  lemma AffixedPreservesCore(c1: string, c2: string, prefix: Option<string>, suffix: Option<string>)
    requires |c1| == |c2| && c1 != c2
    ensures Affixed(c1, prefix, suffix) != Affixed(c2, prefix, suffix)
  {
    var p := if Present(prefix) then prefix.value else "";
    var s := if Present(suffix) then suffix.value else "";
    assert Affixed(c1, prefix, suffix) == p + c1 + s;
    assert Affixed(c2, prefix, suffix) == p + c2 + s;
    CoreAt(p, c1, s);
    CoreAt(p, c2, s);
  }

  lemma CoreAt(p: string, c: string, s: string)
    ensures (p + c + s)[|p|..|p| + |c|] == c
  {
    var w := p + c + s;
    forall k | 0 <= k < |c| ensures w[|p| + k] == c[k] { }
  }
}
