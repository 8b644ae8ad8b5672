/** The note quantizer of src/notes.rs: a table of 108 equal-tempered notes,
    nine octaves of twelve pitch classes starting at C0 = 16.35 Hz, each entry
    one semitone above the previous one, and the binary search that maps a
    frequency to the nearest entry.

    The semitone ratio (`2.0f32.powf(1.0 / 12.0)` in the source) is a parameter
    `ratio`; every ordering fact needs only `ratio > 1`. */
module Notes {
  import opened Common

  /** The pitch classes, in the order the source declares them. */
  datatype NoteName = A | ASharp | B | C | CSharp | D | DSharp | E | F | FSharp | G | GSharp

  datatype Note = Note(freq: real, octave: nat, name: NoteName)

  /** The order in which the table visits the pitch classes inside an octave. */
  const Chromatic: seq<NoteName> := [C, CSharp, D, DSharp, E, F, FSharp, G, GSharp, A, ASharp, B]

  /** Frequency of C0, the first table entry. */
  const BaseFreq: real := 16.35

  const OctaveCount: nat := 9

  const TableSize: nat := 108

  /** Every pitch class appears in `Chromatic` exactly once. */
  lemma ChromaticIsPermutation()
    ensures |Chromatic| == 12
    ensures forall i, j :: 0 <= i < j < 12 ==> Chromatic[i] != Chromatic[j]
    ensures forall n: NoteName :: n in Chromatic
  {
    forall n: NoteName ensures n in Chromatic {
      match n
      case A => assert Chromatic[9] == A;
      case ASharp => assert Chromatic[10] == ASharp;
      case B => assert Chromatic[11] == B;
      case C => assert Chromatic[0] == C;
      case CSharp => assert Chromatic[1] == CSharp;
      case D => assert Chromatic[2] == D;
      case DSharp => assert Chromatic[3] == DSharp;
      case E => assert Chromatic[4] == E;
      case F => assert Chromatic[5] == F;
      case FSharp => assert Chromatic[6] == FSharp;
      case G => assert Chromatic[7] == G;
      case GSharp => assert Chromatic[8] == GSharp;
    }
  }

  /** Frequency of table entry `i`: each entry one semitone above the one before. */
  function Freq(ratio: real, i: nat): real
  {
    if i == 0 then BaseFreq else Freq(ratio, i - 1) * ratio
  }

  function Entry(ratio: real, i: nat): Note
    requires i < TableSize
  {
    Note(Freq(ratio, i), i / 12, Chromatic[i % 12])
  }

  /** Entry `12 * octave + j` is the `j`-th pitch class of `octave`; only C0
      keeps the base frequency, every other entry steps up from the one before. */
  lemma EntryAt(ratio: real, octave: nat, j: nat)
    requires octave < OctaveCount && j < 12
    ensures Chromatic[j] == C <==> j == 0
    ensures Entry(ratio, 12 * octave + j) ==
      Note(if octave == 0 && j == 0 then BaseFreq else Freq(ratio, 12 * octave + j - 1) * ratio, octave, Chromatic[j])
  {
    assert (12 * octave + j) / 12 == octave && (12 * octave + j) % 12 == j;
  }

  /** The table `all_notes` builds. */
  function NoteTable(ratio: real): (t: seq<Note>)
    ensures |t| == TableSize
    ensures t[0] == Note(BaseFreq, 0, C)
    ensures forall i :: 0 < i < |t| ==> t[i].freq == t[i - 1].freq * ratio
    ensures forall i :: 0 <= i < |t| ==> t[i].octave == i / 12 && t[i].name == Chromatic[i % 12]
  {
    seq(TableSize, i requires 0 <= i < TableSize => Entry(ratio, i))
  }

  /** `all_notes`: nested loops over octaves and pitch classes, pushing one note
      per step; C0 is pushed as is, every later note is the running base
      frequency times the ratio, which then becomes the new base. */
  method AllNotes(ratio: real) returns (notes: seq<Note>)
    ensures notes == NoteTable(ratio)
  {
    notes := [];
    var baseFreq := BaseFreq;
    for octave := 0 to OctaveCount
      invariant |notes| == 12 * octave
      invariant forall i :: 0 <= i < |notes| ==> notes[i] == Entry(ratio, i)
      invariant baseFreq == Freq(ratio, if |notes| == 0 then 0 else |notes| - 1)
    {
      for j := 0 to 12
        invariant |notes| == 12 * octave + j
        invariant forall i :: 0 <= i < |notes| ==> notes[i] == Entry(ratio, i)
        invariant baseFreq == Freq(ratio, if |notes| == 0 then 0 else |notes| - 1)
      {
        var name := Chromatic[j];
        EntryAt(ratio, octave, j);
        if octave == 0 && name == C {
          notes := notes + [Note(baseFreq, octave, name)];
          continue;
        }
        var freq := baseFreq * ratio;
        notes := notes + [Note(freq, octave, name)];
        baseFreq := freq;
      }
    }
  }

  ghost predicate Sorted(notes: seq<Note>)
  {
    forall i, j :: 0 <= i <= j < |notes| ==> notes[i].freq <= notes[j].freq
  }

  ghost predicate StrictlySorted(notes: seq<Note>)
  {
    forall i, j :: 0 <= i < j < |notes| ==> notes[i].freq < notes[j].freq
  }

  lemma {:induction false} FreqIncreasing(ratio: real, i: nat, j: nat)
    requires ratio > 1.0 && i < j
    ensures 0.0 < Freq(ratio, i) < Freq(ratio, j)
    decreases j
  {
    FreqStep(ratio, j - 1);
    if i < j - 1 {
      FreqIncreasing(ratio, i, j - 1);
    }
  }

  lemma FreqStep(ratio: real, i: nat)
    requires ratio > 1.0
    ensures 0.0 < Freq(ratio, i) < Freq(ratio, i + 1)
  {
    FreqPositive(ratio, i);
    Grows(Freq(ratio, i), ratio);
    assert Freq(ratio, i + 1) == Freq(ratio, i) * ratio;
  }

  lemma Grows(x: real, ratio: real)
    requires x > 0.0 && ratio > 1.0
    ensures x < x * ratio
  {
    assert x * ratio - x == x * (ratio - 1.0);
  }

  lemma {:induction false} FreqPositive(ratio: real, i: nat)
    requires ratio > 1.0
    ensures Freq(ratio, i) > 0.0
  {
    if i > 0 {
      FreqPositive(ratio, i - 1);
    }
  }

  /** With a ratio above one the table is strictly increasing in frequency. */
  lemma TableStrictlySorted(ratio: real)
    requires ratio > 1.0
    ensures StrictlySorted(NoteTable(ratio))
  {
    var t := NoteTable(ratio);
    forall i, j | 0 <= i < j < |t| ensures t[i].freq < t[j].freq {
      FreqIncreasing(ratio, i, j);
    }
  }

  /** The table names each (octave, pitch class) pair once: no two entries share both. */
  lemma TableEntriesDistinct(ratio: real, i: nat, j: nat)
    requires i < j < TableSize
    ensures (NoteTable(ratio)[i].octave, NoteTable(ratio)[i].name) != (NoteTable(ratio)[j].octave, NoteTable(ratio)[j].name)
  {
    ChromaticIsPermutation();
    var t := NoteTable(ratio);
    if t[i].octave == t[j].octave {
      assert i / 12 == j / 12;
      assert i % 12 != j % 12;
      assert Chromatic[i % 12] != Chromatic[j % 12];
    }
  }

  /** The position where the binary search ends: the least index `e` from `i`
      on whose frequency is at least `value`, or the table length if none is. */
  function LowerBound(notes: seq<Note>, value: real, i: nat): (e: nat)
    requires i <= |notes|
    ensures i <= e <= |notes|
    ensures e == |notes| || notes[e].freq >= value
    ensures forall j :: i <= j < e ==> notes[j].freq < value
    decreases |notes| - i
  {
    if i == |notes| || notes[i].freq >= value then i else LowerBound(notes, value, i + 1)
  }

  /** What `Note::from` returns, stated without the loop: with `e` the end of
      the search, the entry before it when strictly closer, else the entry at
      `e`; `None` where the source indexes past the table, which happens
      exactly when no entry after the first reaches the query. A result is
      always one of two neighbouring entries, the upper one at or above the
      query. */
  function Quantize(notes: seq<Note>, value: real): (r: Option<Note>)
    ensures r.None? <==> forall j :: 1 <= j < |notes| ==> notes[j].freq < value
    ensures r.Some? ==> exists e :: 1 <= e < |notes| && value <= notes[e].freq &&
                                    (r.value == notes[e - 1] || r.value == notes[e])
  {
    if |notes| == 0 then None
    else
      var e := LowerBound(notes, value, 1);
      if e == |notes| then None
      else if Abs(notes[e - 1].freq - value) < Abs(notes[e].freq - value) then Some(notes[e - 1])
      else Some(notes[e])
  }

  /** `Note::from` on a sorted table (the source's table is `NoteTable(ratio)`):
      the half-open binary search on `start`/`end`, then the nearer neighbour. */
  method FromFreq(notes: seq<Note>, value: real) returns (r: Option<Note>)
    requires Sorted(notes)
    ensures r == Quantize(notes, value)
  {
    if |notes| == 0 {
      // `notes[start]` with start == 0 is out of bounds
      return None;
    }
    var start, end := 0, |notes|;
    while end - start > 1
      invariant 0 <= start < end <= |notes|
      invariant start == 0 || notes[start].freq < value
      invariant end == |notes| || notes[end].freq >= value
    {
      var mid := (start + end) / 2;
      if notes[mid].freq < value {
        start := mid;
      } else {
        end := mid;
      }
    }
    assert end == LowerBound(notes, value, 1) by {
      var e := LowerBound(notes, value, 1);
      forall j | 1 <= j < end ensures notes[j].freq < value {
        assert j <= start;
      }
    }
    if end == |notes| {
      // `notes[end]` is out of bounds
      return None;
    }
    var s := notes[start];
    var e := notes[end];
    if Abs(s.freq - value) < Abs(e.freq - value) {
      r := Some(s);
    } else {
      r := Some(e);
    }
  }

  /** The search fails exactly when the table has fewer than two entries or the
      query lies above the highest frequency. */
  lemma QuantizeFailsIff(notes: seq<Note>, value: real)
    requires Sorted(notes)
    ensures Quantize(notes, value).None? <==> |notes| <= 1 || notes[|notes| - 1].freq < value
  {
    if |notes| >= 2 {
      var e := LowerBound(notes, value, 1);
      if notes[|notes| - 1].freq < value {
        forall j | 1 <= j < |notes| ensures notes[j].freq < value {
          assert notes[j].freq <= notes[|notes| - 1].freq;
        }
        assert e == |notes|;
      }
    }
  }

  /** Whatever the search returns is a table entry at least as close to the
      query as every other entry. */
  lemma QuantizeNearest(notes: seq<Note>, value: real)
    requires Sorted(notes)
    requires Quantize(notes, value).Some?
    ensures Quantize(notes, value).value in notes
    ensures forall j :: 0 <= j < |notes| ==>
      Abs(Quantize(notes, value).value.freq - value) <= Abs(notes[j].freq - value)
  {
    var e := LowerBound(notes, value, 1);
    var lo, hi := notes[e - 1], notes[e];
    forall j | 0 <= j < |notes|
      ensures Abs(lo.freq - value) <= Abs(notes[j].freq - value) || Abs(hi.freq - value) <= Abs(notes[j].freq - value)
    {
      if j >= e {
        assert hi.freq <= notes[j].freq;
      } else if j < e - 1 {
        assert notes[j].freq <= lo.freq < value;
      }
    }
  }

  /** Between two neighbouring entries the lower one wins only when strictly
      closer; an exact tie goes to the upper one. */
  lemma QuantizeBetween(notes: seq<Note>, value: real, i: nat)
    requires Sorted(notes)
    requires 1 <= i < |notes| && notes[i - 1].freq < value <= notes[i].freq
    ensures Quantize(notes, value) ==
      if value - notes[i - 1].freq < notes[i].freq - value then Some(notes[i - 1]) else Some(notes[i])
  {
    var e := LowerBound(notes, value, 1);
    assert notes[i - 1].freq < value;
  }

  /** Querying an entry's exact frequency returns that entry. */
  lemma QuantizeExact(notes: seq<Note>, i: nat)
    requires StrictlySorted(notes) && 2 <= |notes| && i < |notes|
    ensures Quantize(notes, notes[i].freq) == Some(notes[i])
  {
    var v := notes[i].freq;
    var e := LowerBound(notes, v, 1);
    if i == 0 {
      assert notes[0].freq < notes[1].freq;
      assert e == 1;
    }
  }

  /** On the note table a query fails exactly above the highest note, B8. */
  lemma NoteTableFailsIff(ratio: real, value: real)
    requires ratio > 1.0
    ensures Quantize(NoteTable(ratio), value).None? <==> value > Freq(ratio, TableSize - 1)
  {
    TableStrictlySorted(ratio);
    QuantizeFailsIff(NoteTable(ratio), value);
  }

  /** On the note table every answer is a nearest entry. */
  lemma NoteTableNearest(ratio: real, value: real, j: nat)
    requires ratio > 1.0 && j < TableSize
    requires Quantize(NoteTable(ratio), value).Some?
    ensures Abs(Quantize(NoteTable(ratio), value).value.freq - value) <= Abs(NoteTable(ratio)[j].freq - value)
  {
    TableStrictlySorted(ratio);
    QuantizeNearest(NoteTable(ratio), value);
  }

  /** On the note table every entry's own frequency maps back to that entry. */
  lemma NoteTableRoundTrip(ratio: real, i: nat)
    requires ratio > 1.0 && i < TableSize
    ensures Quantize(NoteTable(ratio), NoteTable(ratio)[i].freq) == Some(NoteTable(ratio)[i])
  {
    TableStrictlySorted(ratio);
    QuantizeExact(NoteTable(ratio), i);
  }
}
