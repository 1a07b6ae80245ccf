/** The {x, y} data point of the regression (struct DataPoint). */
module Points {
  /** One point; the source stores two doubles, the model exact reals. */
  datatype DataPoint = DataPoint(x: real, y: real)
}
