/** The check cursor as it is encoded: its anchor and its identifier are text, and the test compares
    tuples of numbers and texts (src/remindi/service.rs, `check_cursor` and `check_after_cursor`). */
module CursorText {
  import opened Wrappers
  import opened Model
  import opened Timestamps
  import opened CheckPages

  datatype EncodedCursor = EncodedCursor(readiness: nat, priority: nat, nextFireAt: Option<string>, id: string)

  /** The canonical text of an instant of the years 0 to 9999. */
  ghost predicate Renders(text: string, t: Instant) {
    exists c: Components :: WellFormed(c) && InstantOf(c) == t && text == CanonicalText(c)
  }

  ghost predicate RendersOption(text: Option<string>, t: Option<Instant>) {
    (text.Some? <==> t.Some?) && (text.Some? ==> Renders(text.value, t.value))
  }

  /** The encoded position after an item, given the text of its anchor. */
  function Encode(i: CheckedItem, anchor: Option<string>): EncodedCursor {
    EncodedCursor(ReadinessRank(i.readiness), PriorityRank(i.remindi.priority), anchor, UuidText(i.remindi.id))
  }

  /** The tuple comparison: readiness, reversed priority, absence of an anchor, anchor text or the empty
      text, identifier text. */
  predicate TupleGreater(k: EncodedCursor, c: EncodedCursor) {
    var text, other :=
      if k.nextFireAt.Some? then k.nextFireAt.value else "", if c.nextFireAt.Some? then c.nextFireAt.value else "";
    || k.readiness > c.readiness
    || (k.readiness == c.readiness
        && (|| k.priority < c.priority
            || (k.priority == c.priority
                && (|| (k.nextFireAt.None? && c.nextFireAt.Some?)
                    || (k.nextFireAt.None? == c.nextFireAt.None?
                        && (TextLess(other, text) || (text == other && TextLess(c.id, k.id))))))))
  }

  lemma RenderedOrder(x: string, s: Instant, y: string, t: Instant)
    requires Renders(x, s) && Renders(y, t) && Aligned(s) && Aligned(t)
    ensures TextLess(x, y) <==> s < t
    ensures x == y <==> s == t
  {
    hide TextLess, CanonicalText, InstantOf, WellFormed;
    var c :| WellFormed(c) && InstantOf(c) == s && x == CanonicalText(c);
    var d :| WellFormed(d) && InstantOf(d) == t && y == CanonicalText(d);
    TextOrderIsTimeOrder(c, d);
  }

  /** The comparison of encoded cursors says "after" exactly when the comparator says "less". */
  lemma EncodedCursorAgreesWithOrder(
      a: CheckedItem, anchorA: Option<string>, b: CheckedItem, anchorB: Option<string>)
    requires RendersOption(anchorA, a.remindi.nextFireAt) && RendersOption(anchorB, b.remindi.nextFireAt)
    requires AlignedOption(a.remindi.nextFireAt) && AlignedOption(b.remindi.nextFireAt)
    ensures TupleGreater(Encode(b, anchorB), Encode(a, anchorA)) <==> CheckOrder(a, b) == Less
    ensures TupleGreater(Encode(b, anchorB), Encode(a, anchorA)) <==> AfterCursor(b, CursorOf(a))
  {
    hide TextLess, Renders, UuidText;
    UuidTextOrder(a.remindi.id, b.remindi.id);
    IrreflexiveText("");
    if anchorA.Some? && anchorB.Some? {
      RenderedOrder(anchorA.value, a.remindi.nextFireAt.value, anchorB.value, b.remindi.nextFireAt.value);
    }
    CursorAgreesWithOrder(a, b);
  }
}
