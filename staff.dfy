/** The staff directory: the users whose role is Doctor or Asistente, and the
    search box over their names and roles. */
module Staff {
  import opened Text
  import opened Seqs

  /** The fields of a user the directory reads. */
  datatype Member = Member(id: int, fullName: string, role: string)

  predicate IsStaff(u: Member) {
    u.role == "Doctor" || u.role == "Asistente"
  }

  /** `data.filter(u => ['Doctor', 'Asistente'].includes(u.role))`: the
      doctors and assistants, in the order loaded. */
  function LoadStaff(users: seq<Member>): (staff: seq<Member>)
    ensures IsSubsequence(staff, users)
    ensures forall i :: 0 <= i < |staff| ==> IsStaff(staff[i])
    ensures forall i :: 0 <= i < |users| && IsStaff(users[i]) ==> users[i] in staff
  {
    FilterIsSubsequence(users, IsStaff);
    Filter(users, IsStaff)
  }

  /** The search test: the lower-cased name or role contains the lower-cased term. */
  function Matches(term: string): Member -> bool {
    (m: Member) => Contains(Lower(m.fullName), Lower(term)) || Contains(Lower(m.role), Lower(term))
  }

  /** `filteredStaff`. */
  function Search(staff: seq<Member>, term: string): (found: seq<Member>)
    ensures IsSubsequence(found, staff)
    ensures forall i :: 0 <= i < |found| ==> Matches(term)(found[i])
    ensures forall i :: 0 <= i < |staff| && Matches(term)(staff[i]) ==> staff[i] in found
  {
    FilterIsSubsequence(staff, Matches(term));
    Filter(staff, Matches(term))
  }

  /** An empty search keeps everyone. */
  lemma EmptySearchKeepsAll(staff: seq<Member>)
    ensures Search(staff, "") == staff
  {
    forall m: Member ensures Matches("")(m) {
      ContainsEmpty(Lower(m.fullName));
    }
    FilterKeepsAll(staff, Matches(""));
  }

  /** Typing more narrows the result: a term that contains another finds a
      subsequence of what the other finds, and exactly its matches among them. */
  lemma LongerTermNarrows(staff: seq<Member>, term: string, longer: string)
    requires Contains(longer, term)
    ensures Search(staff, longer) == Filter(Search(staff, term), Matches(longer))
    ensures IsSubsequence(Search(staff, longer), Search(staff, term))
  {
    LowerKeepsContains(longer, term);
    forall m: Member | Matches(longer)(m) ensures Matches(term)(m) {
      if Contains(Lower(m.fullName), Lower(longer)) {
        ContainsTransitive(Lower(m.fullName), Lower(longer), Lower(term));
      } else {
        ContainsTransitive(Lower(m.role), Lower(longer), Lower(term));
      }
    }
    FilterNarrow(staff, Matches(term), Matches(longer));
    FilterIsSubsequence(Search(staff, term), Matches(longer));
  }

  /** The "No encontramos a nadie" panel: shown exactly when nobody matches. */
  predicate ShowsEmptyState(staff: seq<Member>, term: string) {
    |Search(staff, term)| == 0
  }

  lemma EmptyStateExactlyWhenNoMatch(staff: seq<Member>, term: string)
    ensures ShowsEmptyState(staff, term) <==> forall i :: 0 <= i < |staff| ==> !Matches(term)(staff[i])
  {
    FilterEmpty(staff, Matches(term));
  }
}
