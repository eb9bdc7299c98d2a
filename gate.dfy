/** Who may change what. */
module Gate {
  import opened Reactions
  import opened Models

  /** `is_owner`: the requester wrote the post, or is staff. `requester` is the stored record of `actor`, `users[actor]`. */
  predicate IsOwner(actor: UserId, requester: User, author: UserId) {
    actor == author || requester.isStaff
  }

  /** `staff_required`: only staff get past the decorator. */
  predicate StaffRequired(requester: User) {
    requester.isStaff
  }
}
