/** The `currentMess` record both login handlers write: which mess the
    signed-in user works in, and whether as its manager or as a member. */
module Session {

  datatype Role = Manager | Member

  datatype MessSession = MessSession(messId: string, role: Role)
}
