/** The technicians screen: create and edit through one form, and delete. Every
    handler replaces only the technician list. */
module Technicians {
  import opened Wrappers
  import opened Seqs
  import opened Text
  import opened Domain

  /** The form's fields; the form has no identifier input. */
  datatype TechnicianForm = TechnicianForm(name: string, specialty: string, phone: string, email: string)

  const DefaultSpecialty: string := "CCTV y Seguridad"

  /** The form as opened for a new technician. */
  const BlankTechnicianForm: TechnicianForm := TechnicianForm("", DefaultSpecialty, "", "")

  /** The form as opened for editing `t`. */
  function FormOf(t: Technician): TechnicianForm {
    TechnicianForm(t.name, t.specialty, t.phone, t.email)
  }

  function WithId(f: TechnicianForm, id: string): Technician {
    Technician(id, f.name, f.specialty, f.phone, f.email)
  }

  /** A technician's identifier: 't' and the last four digits of the creation
      timestamp (in milliseconds). Before 10000 the whole timestamp is used; from 1000
      on the four digits are the timestamp modulo 10000, so timestamps 10 seconds
      apart collide. */
  function TechnicianId(now: nat): (id: string)
    ensures 2 <= |id| <= 5 && id[0] == 't'
    ensures forall i :: 1 <= i < |id| ==> IsDigit(id[i])
    ensures now < 10000 ==> id[1..] == NatToString(now)
    ensures now >= 1000 ==> |id| == 5 && DigitsValue(id[1..]) == now % 10000
  {
    LastFourDigits(now);
    var id := "t" + LastFour(NatToString(now));
    assert id[1..] == LastFour(NatToString(now));
    id
  }

  /** Identifiers repeat: from 1000 on, every timestamp gets the same identifier as
      the one ten seconds later. */
  lemma TechnicianIdsRepeat(n: nat)
    requires n >= 1000
    ensures TechnicianId(n) == TechnicianId(n + 10000)
  {
    LastFourRepeats(n);
  }

  /** `handleSave()`. Without a name nothing changes. A new technician is
      prepended; an edit rewrites, in place, the technicians carrying the edited
      one's identifier, which the rewritten record keeps. */
  function SaveTechnician(s: AppState, editing: Option<Technician>, f: TechnicianForm, now: nat): (r: AppState)
    ensures r == s.(technicians := r.technicians)
    ensures f.name == "" ==> r == s
    ensures f.name != "" && editing.None? ==>
      && |r.technicians| == |s.technicians| + 1
      && r.technicians[0] == WithId(f, TechnicianId(now))
      && r.technicians[1..] == s.technicians
    ensures f.name != "" && editing.Some? ==>
      && |r.technicians| == |s.technicians|
      && forall i :: 0 <= i < |s.technicians| ==>
           r.technicians[i] == if s.technicians[i].id == editing.value.id then WithId(f, editing.value.id) else s.technicians[i]
  {
    if f.name == "" then s
    else match editing
      case Some(t) =>
        s.(technicians := Replace(s.technicians, (x: Technician) => x.id == t.id, (x: Technician) => WithId(f, t.id)))
      case None =>
        s.(technicians := [WithId(f, TechnicianId(now))] + s.technicians)
  }

  predicate DistinctTechnicianIds(a: Technician, b: Technician) {
    a.id != b.id
  }

  /** No two technicians share an identifier. */
  predicate UniqueTechnicianIds(ts: seq<Technician>) {
    Pairwise(ts, DistinctTechnicianIds)
  }

  /** Saving keeps technician identifiers unique: an edit keeps every identifier,
      and a creation adds one, which must not be in use (with only four digits of
      the timestamp, creations 10 seconds apart collide). */
  lemma SaveTechnicianKeepsIdsUnique(s: AppState, editing: Option<Technician>, f: TechnicianForm, now: nat)
    requires UniqueTechnicianIds(s.technicians)
    requires editing.None? ==> forall i :: 0 <= i < |s.technicians| ==> s.technicians[i].id != TechnicianId(now)
    ensures UniqueTechnicianIds(SaveTechnician(s, editing, f, now).technicians)
  {
    var rs := SaveTechnician(s, editing, f, now).technicians;
    if f.name != "" {
      if editing.Some? {
        forall i, j | 0 <= i < j < |rs|
          ensures DistinctTechnicianIds(rs[i], rs[j])
        {
          assert DistinctTechnicianIds(s.technicians[i], s.technicians[j]);
        }
      } else {
        assert rs == [rs[0]] + s.technicians;
        PairwisePrepend(rs[0], s.technicians, DistinctTechnicianIds);
      }
    }
  }

  /** Opening a technician for editing and saving without changes leaves the state
      as it was, when identifiers are unique. */
  lemma SaveUnchangedTechnicianEditIsNoOp(s: AppState, t: Technician, now: nat)
    requires UniqueTechnicianIds(s.technicians)
    requires t in s.technicians
    requires t.name != ""
    ensures SaveTechnician(s, Some(t), FormOf(t), now) == s
  {
    var rs := SaveTechnician(s, Some(t), FormOf(t), now).technicians;
    var k :| 0 <= k < |s.technicians| && s.technicians[k] == t;
    forall i | 0 <= i < |s.technicians|
      ensures rs[i] == s.technicians[i]
    {
      if i != k {
        if i < k {
          assert DistinctTechnicianIds(s.technicians[i], s.technicians[k]);
        } else {
          assert DistinctTechnicianIds(s.technicians[k], s.technicians[i]);
        }
      }
    }
  }

  /** A technician created from the blank form with only a name typed gets the
      default specialty. */
  lemma NewTechnicianDefaultsSpecialty(s: AppState, name: string, now: nat)
    requires name != ""
    ensures SaveTechnician(s, None, BlankTechnicianForm.(name := name), now).technicians[0].specialty
      == "CCTV y Seguridad"
  {
  }

  function KeepsOtherTechnicians(id: string): Technician -> bool {
    (t: Technician) => t.id != id
  }

  /** `handleDelete(id)`: on confirmation removes exactly the technicians with that
      identifier. */
  function DeleteTechnician(s: AppState, id: string, confirm: bool): (r: AppState)
    ensures r == s.(technicians := r.technicians)
    ensures !confirm ==> r == s
    ensures confirm ==> forall t :: t in r.technicians <==> t in s.technicians && t.id != id
    ensures (forall i :: 0 <= i < |s.technicians| ==> s.technicians[i].id != id) ==> r == s
  {
    if confirm then s.(technicians := Filter(s.technicians, KeepsOtherTechnicians(id))) else s
  }

  /** Deleting from a split list deletes from each part and joins the results, so
      every technician with the id goes, however often it occurs (ids repeat), and
      the others stay in order and multiplicity. */
  lemma DeleteTechnicianSplits(s: AppState, id: string, a: seq<Technician>, b: seq<Technician>)
    requires s.technicians == a + b
    ensures DeleteTechnician(s, id, true).technicians
      == DeleteTechnician(s.(technicians := a), id, true).technicians
       + DeleteTechnician(s.(technicians := b), id, true).technicians
  {
    FilterConcat(a, b, KeepsOtherTechnicians(id));
  }

  /** Deleting keeps the other technicians in their order. */
  lemma DeleteTechnicianKeepsOrder(s: AppState, a: seq<Technician>, t: Technician, b: seq<Technician>)
    requires s.technicians == a + [t] + b
    requires forall i :: 0 <= i < |a| ==> a[i].id != t.id
    requires forall i :: 0 <= i < |b| ==> b[i].id != t.id
    ensures DeleteTechnician(s, t.id, true).technicians == a + b
  {
    FilterDropsOne(a, t, b, KeepsOtherTechnicians(t.id));
  }
}
