/** What the delivery requests share: who asks, about which order and fuel, and when. */
module Requests {
  type Fuel = string
  type OrderId = nat
  type UserId = nat
  type Instant = int

  datatype Role = Driver | Manager | Admin | Client
  datatype Actor = Actor(role: Role, id: UserId)

  /** The store may be viewed, and worked with, by drivers, managers and administrators. */
  predicate MayView(actor: Actor) {
    actor.role != Client
  }
}
