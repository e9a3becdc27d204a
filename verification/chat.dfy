/** The chat entries the app keeps in `st.session_state.messages` and sends to the chat endpoint. */
module Chat {

  /** The roles an entry can carry; only the context composer ever produces `System`. */
  datatype Role = User | Assistant | System

  /** One `{"role": ..., "content": ...}` dictionary. */
  datatype Message = Message(role: Role, content: string)

  /** The stored conversation never holds a synthesized system entry. */
  predicate NoSystem(history: seq<Message>) {
    forall i :: 0 <= i < |history| ==> history[i].role != System
  }
}
